/** The inverse of a placement: `cut_str_by_needles` replaces every wrapped needle
    "\n{needle}\n" by the marker "[CHAT_SEP]" (Python's left-to-right,
    non-overlapping `str.replace`) and splits on the marker; `check_raw_long_text`
    is the concatenation check the drivers apply to the recovered shards. Both
    scripts that use them carry identical copies. */
module NeedleSplit {
  import opened TextBasics

  const ChatSep: Text := "[CHAT_SEP]"

  predicate OccursAt(t: Text, w: Text, i: nat)
  {
    i + |w| <= |t| && t[i..i + |w|] == w
  }

  /** `w` occurs nowhere in `t`. */
  ghost predicate Free(t: Text, w: Text)
  {
    forall i: nat :: !OccursAt(t, w, i)
  }

  lemma OccursDrop(t: Text, w: Text, i: nat, k: nat)
    requires k <= |t|
    ensures OccursAt(t, w, i + k) == OccursAt(t[k..], w, i)
  {
    if i + k + |w| <= |t| {
      assert t[k..][i..i + |w|] == t[i + k..i + k + |w|];
    }
  }

  /** Occurrences in a suffix are the occurrences past its start. */
  lemma OccursDropAll(t: Text, w: Text, k: nat)
    requires k <= |t|
    ensures forall i: nat :: i >= k ==> OccursAt(t, w, i) == OccursAt(t[k..], w, i - k)
  {
    forall i: nat | i >= k ensures OccursAt(t, w, i) == OccursAt(t[k..], w, i - k) {
      OccursDrop(t, w, i - k, k);
    }
  }

  /** No occurrence can start where `u` differs from `w` at offset `j`. */
  lemma NotAtStart(u: Text, w: Text, j: nat)
    requires j < |w| && (|w| <= |u| ==> u[j] != w[j])
    ensures !OccursAt(u, w, 0)
  {
    if |w| <= |u| {
      assert u[..|w|][j] != w[j];
    }
  }

  /** Python's `t.replace(w, r)`: every occurrence of `w` is replaced by `r`,
      scanning from the left and resuming after each replaced occurrence. */
  function ReplaceAll(t: Text, w: Text, r: Text): (u: Text)
    requires |w| > 0
    ensures r == w ==> u == t
    ensures |r| == |w| ==> |u| == |t|
    decreases |t|
  {
    if |t| < |w| then t
    else if t[..|w|] == w then r + ReplaceAll(t[|w|..], w, r)
    else [t[0]] + ReplaceAll(t[1..], w, r)
  }

  /** `c` prepended to the first part. */
  function ConsFirst(c: char, parts: seq<Text>): seq<Text>
    requires |parts| > 0
  {
    [[c] + parts[0]] + parts[1..]
  }

  /** Python's `t.split(w)`: the pieces between non-overlapping occurrences of
      `w`, scanning from the left. */
  function Split(t: Text, w: Text): (parts: seq<Text>)
    requires |w| > 0
    ensures |parts| > 0
    decreases |t|
  {
    if |t| < |w| then [t]
    else if t[..|w|] == w then [[]] + Split(t[|w|..], w)
    else ConsFirst(t[0], Split(t[1..], w))
  }

  /** Peeling the first character off a prefix free of occurrences. */
  lemma SkipOne(a: Text, b: Text, w: Text)
    requires |w| > 0 && |a| > 0
    requires forall i: nat :: i < |a| ==> !OccursAt(a + b, w, i)
    ensures !OccursAt(a + b, w, 0) && (a + b)[0] == a[0]
    ensures (a + b)[1..] == a[1..] + b
    ensures forall i: nat :: i < |a[1..]| ==> !OccursAt(a[1..] + b, w, i)
  {
    var t := a + b;
    assert t[1..] == a[1..] + b;
    forall i: nat | i < |a[1..]| ensures !OccursAt(a[1..] + b, w, i) {
      assert !OccursAt(t, w, i + 1);
      OccursDrop(t, w, i, 1);
    }
  }

  lemma ReplaceStep(t: Text, w: Text, r: Text)
    requires |w| > 0 && |t| > 0 && !OccursAt(t, w, 0)
    ensures ReplaceAll(t, w, r) == [t[0]] + ReplaceAll(t[1..], w, r)
  {
    if |t| >= |w| {
      assert t[..|w|] != w;
    }
  }

  lemma SplitStep(t: Text, w: Text)
    requires |w| > 0 && |t| > 0 && !OccursAt(t, w, 0)
    ensures Split(t, w) == ConsFirst(t[0], Split(t[1..], w))
  {
    if |t| >= |w| {
      assert t[..|w|] != w;
    } else {
      assert [t[0]] + t[1..] == t;
    }
  }

  lemma {:induction false} ReplaceSkip(a: Text, b: Text, w: Text, r: Text)
    requires |w| > 0
    requires forall i: nat :: i < |a| ==> !OccursAt(a + b, w, i)
    ensures ReplaceAll(a + b, w, r) == a + ReplaceAll(b, w, r)
    decreases |a|
  {
    if |a| > 0 {
      SkipOne(a, b, w);
      ReplaceSkip(a[1..], b, w, r);
      ReplaceStep(a + b, w, r);
      assert [a[0]] + (a[1..] + ReplaceAll(b, w, r)) == a + ReplaceAll(b, w, r) by {
        assert a == [a[0]] + a[1..];
      }
    } else {
      assert a + b == b;
    }
  }

  lemma ReplaceHit(a: Text, b: Text, w: Text, r: Text)
    requires |w| > 0
    requires forall i: nat :: i < |a| ==> !OccursAt(a + w + b, w, i)
    ensures ReplaceAll(a + w + b, w, r) == a + r + ReplaceAll(b, w, r)
  {
    assert a + w + b == a + (w + b);
    ReplaceSkip(a, w + b, w, r);
    assert (w + b)[..|w|] == w;
    assert (w + b)[|w|..] == b;
  }

  lemma {:induction false} SplitSkip(a: Text, b: Text, w: Text)
    requires |w| > 0
    requires forall i: nat :: i < |a| ==> !OccursAt(a + b, w, i)
    ensures Split(a + b, w) == [a + Split(b, w)[0]] + Split(b, w)[1..]
    decreases |a|
  {
    var s := Split(b, w);
    if |a| > 0 {
      SkipOne(a, b, w);
      SplitSkip(a[1..], b, w);
      SplitStep(a + b, w);
      assert [a[0]] + (a[1..] + s[0]) == a + s[0] by {
        assert a == [a[0]] + a[1..];
      }
    } else {
      assert a + b == b;
      assert a + s[0] == s[0];
      assert [s[0]] + s[1..] == s;
    }
  }

  lemma SplitHit(a: Text, b: Text, w: Text)
    requires |w| > 0
    requires forall i: nat :: i < |a| ==> !OccursAt(a + w + b, w, i)
    ensures Split(a + w + b, w) == [a] + Split(b, w)
  {
    assert a + w + b == a + (w + b);
    SplitSkip(a, w + b, w);
    assert (w + b)[..|w|] == w;
    assert (w + b)[|w|..] == b;
    assert Split(w + b, w) == [[]] + Split(b, w);
    assert a + [] == a;
  }

  lemma ReplaceFree(t: Text, w: Text, r: Text)
    requires |w| > 0 && Free(t, w)
    ensures ReplaceAll(t, w, r) == t
  {
    assert t + [] == t;
    ReplaceSkip(t, [], w, r);
  }

  lemma SplitFree(t: Text, w: Text)
    requires |w| > 0 && Free(t, w)
    ensures Split(t, w) == [t]
  {
    assert t + [] == t;
    SplitSkip(t, [], w);
  }

  // ---------------------------------------------------------------------
  // The text in the middle of cut_str_by_needles: shards separated by gaps,
  // each gap either already replaced by the marker or still a wrapped needle.

  datatype Gap = Sep | Pending(needle: Text)

  function GapText(g: Gap): Text
  {
    match g
    case Sep => ChatSep
    case Pending(n) => Wrap(n)
  }

  function Stage(shards: seq<Text>, gaps: seq<Gap>): Text
    requires |shards| == |gaps| + 1
    decreases |gaps|
  {
    if |gaps| == 0 then shards[0]
    else shards[0] + GapText(gaps[0]) + Stage(shards[1..], gaps[1..])
  }

  /** Replacing the wrapped `x` turns every gap still holding `x` into the marker. */
  function Resolve(gaps: seq<Gap>, x: Text): (r: seq<Gap>)
    ensures |r| == |gaps|
  {
    seq(|gaps|, i requires 0 <= i < |gaps| => if gaps[i] == Pending(x) then Sep else gaps[i])
  }

  ghost predicate SepFree(t: Text)
  {
    Free(t, ChatSep)
  }

  lemma WrapMismatch(n: Text, x: Text, rest: Text)
    requires '\n' !in n && '\n' !in x && n != x
    ensures !OccursAt(Wrap(n) + rest, Wrap(x), 0)
  {
    var t := Wrap(n) + rest;
    if |x| < |n| {
      assert n[|x|] in n;
      NotAtStart(t, Wrap(x), |x| + 1);
    } else if |x| > |n| {
      assert x[|n|] in x;
      NotAtStart(t, Wrap(x), |n| + 1);
    } else {
      var k :| 0 <= k < |n| && n[k] != x[k];
      NotAtStart(t, Wrap(x), k + 1);
    }
  }

  /** An index where two texts differ, given that their slices differ. */
  lemma Difference(a: Text, b: Text, lo: nat, hi: nat) returns (k: nat)
    requires lo <= hi <= |a| && hi <= |b| && a[lo..hi] != b[lo..hi]
    ensures lo <= k < hi && a[k] != b[k]
  {
    k :| lo <= k < hi && a[k] != b[k];
  }

  /** "\n" + `y` does not start with the wrapped `x` when `y` differs from it at `k`. */
  lemma ClosingMismatch(y: Text, x: Text, k: nat)
    requires k <= |x|
    requires |x| + 1 <= |y| ==> y[k] != (if k < |x| then x[k] else '\n')
    ensures !OccursAt("\n" + y, Wrap(x), 0)
  {
    var u := "\n" + y;
    var w := Wrap(x);
    if |w| <= |u| {
      assert u[k + 1] == y[k];
      assert w[k + 1] == if k < |x| then x[k] else '\n';
    }
    NotAtStart(u, w, k + 1);
  }

  lemma ClosingBeforeGap(s0: Text, g: Gap, rest: Text, x: Text)
    requires '\n' !in s0 && '\n' !in x && SepFree(x) && s0 != x
    ensures !OccursAt("\n" + (s0 + GapText(g) + rest), Wrap(x), 0)
  {
    var y := s0 + GapText(g) + rest;
    if |x| < |s0| {
      assert y[|x|] == s0[|x|] && s0[|x|] in s0;
      ClosingMismatch(y, x, |x|);
    } else if g.Pending? {
      ClosingBeforePending(y, s0, g.needle, rest, x);
    } else {
      ClosingBeforeSep(y, s0, rest, x);
    }
  }

  lemma ClosingBeforePending(y: Text, s0: Text, n: Text, rest: Text, x: Text)
    requires y == s0 + Wrap(n) + rest
    requires '\n' !in x && s0 != x && |x| >= |s0|
    ensures !OccursAt("\n" + y, Wrap(x), 0)
  {
    if |x| > |s0| {
      assert x[|s0|] in x;
      assert y[|s0|] == '\n';
      ClosingMismatch(y, x, |s0|);
    } else {
      assert y[..|s0|] == s0;
      var k := Difference(x, y, 0, |x|);
      ClosingMismatch(y, x, k);
    }
  }

  lemma ClosingBeforeSep(y: Text, s0: Text, rest: Text, x: Text)
    requires y == s0 + ChatSep + rest
    requires '\n' !in x && SepFree(x) && |x| >= |s0|
    ensures !OccursAt("\n" + y, Wrap(x), 0)
  {
    if |x| < |s0| + |ChatSep| {
      var m := |x| - |s0|;
      assert y[|x|] == ChatSep[m];
      assert '\n' !in ChatSep;
      assert ChatSep[m] in ChatSep;
      ClosingMismatch(y, x, |x|);
    } else {
      assert y[|s0|..|s0| + |ChatSep|] == ChatSep;
      assert !OccursAt(x, ChatSep, |s0|);
      var k := Difference(x, y, |s0|, |s0| + |ChatSep|);
      ClosingMismatch(y, x, k);
    }
  }

  /** No wrapped needle starts at the newline that closes the preceding needle. */
  lemma NotAtClosing(shards: seq<Text>, gaps: seq<Gap>, x: Text)
    requires |shards| == |gaps| + 1
    requires '\n' !in shards[0] && '\n' !in x && SepFree(x)
    requires |gaps| > 0 ==> shards[0] != x
    ensures !OccursAt("\n" + Stage(shards, gaps), Wrap(x), 0)
  {
    var s0 := shards[0];
    if |gaps| == 0 {
      if |x| < |s0| {
        assert s0[|x|] in s0;
      }
      ClosingMismatch(s0, x, |x|);
    } else {
      ClosingBeforeGap(s0, gaps[0], Stage(shards[1..], gaps[1..]), x);
    }
  }

  predicate NewlineFreeGaps(gaps: seq<Gap>)
  {
    forall i :: 0 <= i < |gaps| && gaps[i].Pending? ==> '\n' !in gaps[i].needle
  }

  predicate NewlineFreeAll(ts: seq<Text>)
  {
    forall i :: 0 <= i < |ts| ==> '\n' !in ts[i]
  }

  lemma NoNewlineNoOccurrence(a: Text, b: Text, x: Text)
    requires '\n' !in a
    ensures forall i: nat :: i < |a| ==> !OccursAt(a + b, Wrap(x), i)
  {
    forall i: nat | i < |a| ensures !OccursAt(a + b, Wrap(x), i) {
      assert (a + b)[i] == a[i] && a[i] in a;
      OccursDrop(a + b, Wrap(x), 0, i);
      NotAtStart((a + b)[i..], Wrap(x), 0);
    }
  }

  /** No wrapped `x` starts inside a shard followed by a wrapped different needle. */
  lemma NoneBeforeOther(s0: Text, n: Text, rest: Text, x: Text)
    requires '\n' !in s0 && '\n' !in n && '\n' !in x && n != x
    requires !OccursAt("\n" + rest, Wrap(x), 0)
    ensures forall i: nat :: i < |s0 + Wrap(n)| ==> !OccursAt(s0 + Wrap(n) + rest, Wrap(x), i)
  {
    var w := Wrap(x);
    var a := s0 + Wrap(n);
    var t := a + rest;
    NoNewlineNoOccurrence(s0, Wrap(n) + rest, x);
    assert t == s0 + (Wrap(n) + rest);
    forall i: nat | |s0| <= i < |a| ensures !OccursAt(t, w, i) {
      OccursDrop(t, w, 0, i);
      if i == |s0| {
        assert t[|s0|..] == Wrap(n) + rest;
        WrapMismatch(n, x, rest);
      } else if i < |a| - 1 {
        assert t[i] == n[i - |s0| - 1] && n[i - |s0| - 1] in n;
        NotAtStart(t[i..], w, 0);
      } else {
        assert t[i..] == "\n" + rest;
      }
    }
  }

  lemma ReplacePendingSame(s0: Text, rest: Text, x: Text)
    requires '\n' !in s0
    ensures ReplaceAll(s0 + Wrap(x) + rest, Wrap(x), ChatSep) == s0 + ChatSep + ReplaceAll(rest, Wrap(x), ChatSep)
  {
    var w := Wrap(x);
    NoNewlineNoOccurrence(s0, w + rest, x);
    assert s0 + (w + rest) == s0 + w + rest;
    ReplaceHit(s0, rest, w, ChatSep);
  }

  lemma ReplacePastSep(s0: Text, rest: Text, x: Text)
    requires '\n' !in s0
    ensures ReplaceAll(s0 + ChatSep + rest, Wrap(x), ChatSep) == s0 + ChatSep + ReplaceAll(rest, Wrap(x), ChatSep)
  {
    var a := s0 + ChatSep;
    assert '\n' !in ChatSep;
    assert '\n' !in a;
    NoNewlineNoOccurrence(a, rest, x);
    ReplaceSkip(a, rest, Wrap(x), ChatSep);
  }

  lemma ReplacePendingOther(s0: Text, n: Text, rest: Text, x: Text)
    requires '\n' !in s0 && '\n' !in n && '\n' !in x && n != x
    requires !OccursAt("\n" + rest, Wrap(x), 0)
    ensures ReplaceAll(s0 + Wrap(n) + rest, Wrap(x), ChatSep) == s0 + Wrap(n) + ReplaceAll(rest, Wrap(x), ChatSep)
  {
    NoneBeforeOther(s0, n, rest, x);
    ReplaceSkip(s0 + Wrap(n), rest, Wrap(x), ChatSep);
  }

  /** Replacing the wrapped `x` in a staged text handles the first gap and
      leaves the rest to the following gaps. */
  lemma ReplaceFirstGap(shards: seq<Text>, gaps: seq<Gap>, x: Text)
    requires |shards| == |gaps| + 1 && |gaps| > 0
    requires '\n' !in shards[0] && '\n' !in shards[1] && NewlineFreeGaps(gaps)
    requires '\n' !in x && SepFree(x)
    requires |gaps| > 1 ==> shards[1] != x
    ensures ReplaceAll(Stage(shards, gaps), Wrap(x), ChatSep)
         == shards[0] + GapText(Resolve(gaps, x)[0])
            + ReplaceAll(Stage(shards[1..], gaps[1..]), Wrap(x), ChatSep)
  {
    var s0 := shards[0];
    var rest := Stage(shards[1..], gaps[1..]);
    var g0 := gaps[0];
    assert Stage(shards, gaps) == s0 + GapText(g0) + rest;
    match g0
    case Sep =>
      ReplacePastSep(s0, rest, x);
    case Pending(n) =>
      if n == x {
        ReplacePendingSame(s0, rest, x);
      } else {
        assert '\n' !in n;
        NotAtClosing(shards[1..], gaps[1..], x);
        ReplacePendingOther(s0, n, rest, x);
      }
  }

  /** One pass of `input_content.replace("\n{x}\n", '[CHAT_SEP]')` over a staged text. */
  lemma {:induction false} ReplaceStage(shards: seq<Text>, gaps: seq<Gap>, x: Text)
    requires |shards| == |gaps| + 1
    requires NewlineFreeAll(shards) && NewlineFreeGaps(gaps)
    requires '\n' !in x && SepFree(x)
    requires forall i :: 0 < i < |gaps| ==> shards[i] != x
    ensures ReplaceAll(Stage(shards, gaps), Wrap(x), ChatSep) == Stage(shards, Resolve(gaps, x))
    decreases |gaps|
  {
    var s0 := shards[0];
    assert '\n' !in s0;
    if |gaps| == 0 {
      NoNewlineNoOccurrence(s0, [], x);
      assert s0 + [] == s0;
      ReplaceFree(s0, Wrap(x), ChatSep);
    } else {
      assert Resolve(gaps, x)[1..] == Resolve(gaps[1..], x);
      ReplaceStage(shards[1..], gaps[1..], x);
      assert '\n' !in shards[1];
      ReplaceFirstGap(shards, gaps, x);
    }
  }

  /** The gaps after the first `j` needles have been replaced. */
  function GapsAfter(needles: seq<Text>, j: nat): (r: seq<Gap>)
    requires j <= |needles|
    ensures |r| == |needles|
  {
    seq(|needles|, i requires 0 <= i < |needles| =>
      if needles[i] in needles[..j] then Sep else Pending(needles[i]))
  }

  /** The loop body of cut_str_by_needles, applied to the first needles in order. */
  function ReplaceEach(t: Text, needles: seq<Text>): Text
  {
    if |needles| == 0 then t
    else
      var n := |needles| - 1;
      ReplaceAll(ReplaceEach(t, needles[..n]), Wrap(needles[n]), ChatSep)
  }

  /** `cut_str_by_needles(needles, t)` */
  function CutByNeedles(needles: seq<Text>, t: Text): (r: seq<Text>)
    ensures |r| > 0
    ensures |needles| == 0 && Free(t, ChatSep) ==> r == [t]
  {
    SplitWhenFree(t);
    Split(ReplaceEach(t, needles), ChatSep)
  }

  lemma SplitWhenFree(t: Text)
    ensures Free(t, ChatSep) ==> Split(t, ChatSep) == [t]
  {
    if Free(t, ChatSep) {
      SplitFree(t, ChatSep);
    }
  }

  /** The condition under which splitting provably inverts splicing: no shard or
      needle contains a newline or the marker, and no middle shard equals a needle
      (that would make "\n{shard}\n" look like a wrapped needle). */
  ghost predicate Clean(shards: seq<Text>, needles: seq<Text>)
  {
    && (forall i :: 0 <= i < |shards| ==> '\n' !in shards[i] && SepFree(shards[i]))
    && (forall j :: 0 <= j < |needles| ==> '\n' !in needles[j] && SepFree(needles[j]))
    && (forall i, j :: 0 < i < |shards| - 1 && 0 <= j < |needles| ==> shards[i] != needles[j])
  }

  lemma GapsResolve(needles: seq<Text>, j: nat)
    requires j < |needles|
    ensures Resolve(GapsAfter(needles, j), needles[j]) == GapsAfter(needles, j + 1)
  {
    var g := GapsAfter(needles, j);
    assert needles[..j + 1] == needles[..j] + [needles[j]];
    forall i | 0 <= i < |needles|
      ensures Resolve(g, needles[j])[i] == GapsAfter(needles, j + 1)[i]
    {
      assert needles[i] in needles[..j + 1] <==> needles[i] in needles[..j] || needles[i] == needles[j];
    }
  }

  /** Replacing the next needle resolves exactly the gaps that hold it. */
  lemma ReplaceNext(shards: seq<Text>, needles: seq<Text>, j: nat)
    requires |shards| == |needles| + 1 && j < |needles|
    requires Clean(shards, needles)
    ensures ReplaceAll(Stage(shards, GapsAfter(needles, j)), Wrap(needles[j]), ChatSep)
         == Stage(shards, GapsAfter(needles, j + 1))
  {
    var g := GapsAfter(needles, j);
    assert NewlineFreeGaps(g);
    ReplaceStage(shards, g, needles[j]);
    GapsResolve(needles, j);
  }

  lemma ReplaceEachStage(shards: seq<Text>, needles: seq<Text>, j: nat)
    requires |shards| == |needles| + 1 && j <= |needles|
    requires Clean(shards, needles)
    ensures ReplaceEach(Stage(shards, GapsAfter(needles, 0)), needles[..j])
         == Stage(shards, GapsAfter(needles, j))
  {
    var stages := seq(|needles| + 1, k requires 0 <= k <= |needles| => Stage(shards, GapsAfter(needles, k)));
    forall k | 0 <= k < |needles|
      ensures ReplaceAll(stages[k], Wrap(needles[k]), ChatSep) == stages[k + 1]
    {
      ReplaceNext(shards, needles, k);
    }
    ReplaceChain(needles, stages, j);
  }

  /** Replacing the needles one after another walks through the given stages
      when each replacement leads from one stage to the next. */
  lemma {:induction false} ReplaceChain(needles: seq<Text>, stages: seq<Text>, j: nat)
    requires |stages| == |needles| + 1 && j <= |needles|
    requires forall k :: 0 <= k < |needles| ==> ReplaceAll(stages[k], Wrap(needles[k]), ChatSep) == stages[k + 1]
    ensures ReplaceEach(stages[0], needles[..j]) == stages[j]
  {
    if j > 0 {
      ReplaceChain(needles, stages, j - 1);
      ReplaceEachSnoc(stages[0], needles, j);
    }
  }

  /** The last needle of a prefix is replaced after all the ones before it. */
  lemma ReplaceEachSnoc(t: Text, needles: seq<Text>, j: nat)
    requires 0 < j <= |needles|
    ensures ReplaceEach(t, needles[..j])
         == ReplaceAll(ReplaceEach(t, needles[..j - 1]), Wrap(needles[j - 1]), ChatSep)
  {
    var p := needles[..j];
    assert p[..j - 1] == needles[..j - 1] && p[j - 1] == needles[j - 1];
  }

  lemma {:induction false} StagePending(shards: seq<Text>, needles: seq<Text>)
    requires |shards| == |needles| + 1
    ensures Stage(shards, GapsAfter(needles, 0)) == Interleave(shards, needles)
    decreases |needles|
  {
    if |needles| > 0 {
      var g := GapsAfter(needles, 0);
      assert g[0] == Pending(needles[0]);
      assert g[1..] == GapsAfter(needles[1..], 0) by {
        NoGapsResolved(needles);
        NoGapsResolved(needles[1..]);
      }
      assert Stage(shards[1..], g[1..]) == Interleave(shards[1..], needles[1..]) by {
        StagePending(shards[1..], needles[1..]);
      }
    }
  }

  /** Before any replacement every gap still holds its wrapped needle. */
  lemma NoGapsResolved(needles: seq<Text>)
    ensures forall i :: 0 <= i < |needles| ==> GapsAfter(needles, 0)[i] == Pending(needles[i])
  {
  }

  lemma NoSepBefore(s0: Text, y: Text)
    requires SepFree(s0)
    ensures forall i: nat :: i < |s0| ==> !OccursAt(s0 + ChatSep + y, ChatSep, i)
  {
    var t := s0 + ChatSep + y;
    var m := |ChatSep| - 1;
    assert ChatSep[m] == ']' && ']' !in ChatSep[..m];
    forall i: nat | i < |s0| ensures !OccursAt(t, ChatSep, i) {
      if i + |ChatSep| <= |s0| {
        assert t[i..i + |ChatSep|] == s0[i..i + |ChatSep|];
        assert !OccursAt(s0, ChatSep, i);
      } else {
        var k := i + m - |s0|;
        assert t[i + m] == ChatSep[k] == ChatSep[..m][k];
        OccursDrop(t, ChatSep, 0, i);
        NotAtStart(t[i..], ChatSep, m);
      }
    }
  }

  lemma {:induction false} SplitSeps(shards: seq<Text>, gaps: seq<Gap>)
    requires |shards| == |gaps| + 1
    requires forall i :: 0 <= i < |gaps| ==> gaps[i] == Sep
    requires forall i :: 0 <= i < |shards| ==> SepFree(shards[i])
    ensures Split(Stage(shards, gaps), ChatSep) == shards
    decreases |gaps|
  {
    if |gaps| == 0 {
      SplitFree(shards[0], ChatSep);
    } else {
      var rest := Stage(shards[1..], gaps[1..]);
      assert Stage(shards, gaps) == shards[0] + ChatSep + rest by {
        assert GapText(gaps[0]) == ChatSep;
      }
      SplitSeps(shards[1..], gaps[1..]);
      SplitAtSep(Stage(shards, gaps), shards[0], rest, shards[1..]);
      assert [shards[0]] + shards[1..] == shards;
    }
  }

  /** One marker after a marker-free shard splits off that shard. */
  lemma SplitAtSep(t: Text, s0: Text, rest: Text, parts: seq<Text>)
    requires t == s0 + ChatSep + rest && SepFree(s0)
    requires Split(rest, ChatSep) == parts
    ensures Split(t, ChatSep) == [s0] + parts
  {
    NoSepBefore(s0, rest);
    SplitHit(s0, rest, ChatSep);
  }

  /** Round-trip law: splitting the spliced text on its needles gives back the shards. */
  lemma RoundTrip(shards: seq<Text>, needles: seq<Text>)
    requires |shards| == |needles| + 1
    requires Clean(shards, needles)
    ensures CutByNeedles(needles, Interleave(shards, needles)) == shards
  {
    StagePending(shards, needles);
    ReplaceEachStage(shards, needles, |needles|);
    assert needles[..|needles|] == needles;
    var g := GapsAfter(needles, |needles|);
    assert forall i :: 0 <= i < |g| ==> needles[i] in needles[..|needles|];
    SplitSeps(shards, g);
  }

  /** `check_raw_long_text(text_list, raw_text)` */
  function CheckRawLongText(textList: seq<Text>, rawText: Text): (ok: bool)
    ensures ok && |textList| > 0 ==> |textList[0]| <= |rawText| && rawText[..|textList[0]|] == textList[0]
    ensures |textList| == 0 ==> (ok <==> rawText == [])
  {
    Concat(textList) == rawText
  }

  /** The drivers' trust check on a split spliced text succeeds exactly when the
      shards concatenate to the raw document. */
  lemma CheckAfterRoundTrip(shards: seq<Text>, needles: seq<Text>, rawText: Text)
    requires |shards| == |needles| + 1
    requires Clean(shards, needles)
    ensures CheckRawLongText(CutByNeedles(needles, Interleave(shards, needles)), rawText)
        <==> Concat(shards) == rawText
  {
    RoundTrip(shards, needles);
  }

  /** `cut_str_by_needles`: rebinds the text once per needle, then splits. */
  method CutStrByNeedles(needles: seq<Text>, inputContent: Text) returns (textList: seq<Text>)
    ensures textList == CutByNeedles(needles, inputContent)
  {
    var content := inputContent;
    var i := 0;
    while i < |needles|
      invariant 0 <= i <= |needles|
      invariant content == ReplaceEach(inputContent, needles[..i])
    {
      assert needles[..i + 1][..i] == needles[..i];
      content := ReplaceAll(content, Wrap(needles[i]), ChatSep);
      i := i + 1;
    }
    assert needles[..i] == needles;
    textList := Split(content, ChatSep);
  }
}
