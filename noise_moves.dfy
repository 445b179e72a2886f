/** The position perturbations of the noise script: re-splicing the recovered
    shards with `'\n'.join`, the index boxes around every needle cut, the little
    move (one pick per box), the large move (a fresh sample) and the reordering
    of the needles. Every move is applied in the document frame and, shifted by
    the offset of the document inside the prompt, in the prompt frame. */
module NoiseMoves {
  import opened TextBasics

  datatype Option<T> = None | Some(value: T)

  // ---------------------------------------------------------------------
  // insert_needles_to_text

  lemma AlternateAt(shards: seq<Text>, needles: seq<Text>, i: nat)
    requires |shards| == |needles| + 1 && i < |needles|
    ensures Alternate(shards[i..], needles[i..])
         == [shards[i], needles[i]] + Alternate(shards[i + 1..], needles[i + 1..])
  {
    assert shards[i..][1..] == shards[i + 1..];
    assert needles[i..][1..] == needles[i + 1..];
  }

  /** `insert_needles_to_text(text_list, needles)`: the length assertion, the
      alternating list and its `'\n'.join`. */
  method InsertNeedlesToText(textList: seq<Text>, needles: seq<Text>) returns (r: Result<Text>)
    ensures |textList| != |needles| + 1 ==> r == Err(ShardCountMismatch)
    ensures |textList| == |needles| + 1 ==> r == Ok(JoinLines(Alternate(textList, needles)))
  {
    if |textList| != |needles| + 1 {
      return Err(ShardCountMismatch);
    }
    var strList: seq<Text> := [];
    var i := 0;
    while i < |needles|
      invariant 0 <= i <= |needles|
      invariant strList + Alternate(textList[i..], needles[i..]) == Alternate(textList, needles)
    {
      AlternateAt(textList, needles, i);
      strList := strList + [textList[i]] + [needles[i]];
      i := i + 1;
    }
    strList := strList + [textList[|textList| - 1]];
    return Ok(JoinLines(strList));
  }

  /** The newline join re-splices exactly as the accumulation loop does. */
  lemma InsertNeedlesIsSplice(textList: seq<Text>, needles: seq<Text>)
    requires |textList| == |needles| + 1
    ensures JoinLines(Alternate(textList, needles)) == Interleave(textList, needles)
  {
    JoinAlternate(textList, needles);
  }

  // ---------------------------------------------------------------------
  // check_moving_idx_box: the cut of every shard and its terminator index.

  /** `cut_idx_list`: the position of the last character of each shard but the
      last in the joined text, the running length minus one. */
  function CutIndices(strList: seq<Text>): (r: seq<int>)
    ensures |strList| > 0 ==> |r| == |strList| - 1
    ensures |strList| == 0 ==> |r| == 0
  {
    if |strList| <= 1 then []
    else seq(|strList| - 1, i requires 0 <= i < |strList| - 1 => |Concat(strList[..i + 1])| - 1)
  }

  /** `population.index(x)`: the first position holding `x`. */
  function IndexOf(population: seq<nat>, x: int): (r: nat)
    requires x in population
    ensures r < |population| && population[r] == x
    ensures forall k :: 0 <= k < r ==> population[k] != x
  {
    if population[0] == x then 0 else 1 + IndexOf(population[1..], x)
  }

  /** `[period_positions.index(idx) for idx in cut_idx_list]`, which raises
      ValueError on a cut that is not a terminator position. */
  function Indices(pp: seq<nat>, cuts: seq<int>): (r: Result<seq<nat>>)
    ensures r.Ok? <==> forall k :: 0 <= k < |cuts| ==> cuts[k] in pp
    ensures r.Err? ==> r.error == NotATerminator
    ensures r.Ok? ==> |r.value| == |cuts|
    ensures r.Ok? ==> forall k :: 0 <= k < |cuts| ==> r.value[k] < |pp| && pp[r.value[k]] == cuts[k]
  {
    if |cuts| == 0 then Ok([])
    else if cuts[0] !in pp then Err(NotATerminator)
    else
      var rest := Indices(pp, cuts[1..]);
      if rest.Err? then
        assert !(cuts[1..][0] in pp) || exists k :: 0 <= k < |cuts| - 1 && cuts[1..][k] !in pp;
        Err(NotATerminator)
      else Ok([IndexOf(pp, cuts[0])] + rest.value)
  }

  /** A slice bound clamped to the length, as Python clamps it. */
  function Clamp(x: nat, n: nat): (r: nat)
    ensures r <= n && r <= x && (x <= n ==> r == x)
  {
    if x <= n then x else n
  }

  /** Python's `s[lo:hi]` on a list, for non-negative bounds: element `k` of the
      slice is element `lo + k` of `s`, and the slice ends before `hi`. */
  function ListSlice(s: seq<nat>, lo: nat, hi: nat): (r: seq<nat>)
    ensures |r| <= |s|
  {
    var a := Clamp(lo, |s|);
    var b := Clamp(hi, |s|);
    if a <= b then s[a..b] else []
  }

  /** Element `k` of a slice is element `lo + k` of the list, and the slice
      ends before `hi`. */
  lemma SliceIndex(s: seq<nat>, lo: nat, hi: nat)
    ensures var r := ListSlice(s, lo, hi);
      && Clamp(lo, |s|) + |r| <= |s| && (|r| > 0 ==> Clamp(lo, |s|) + |r| <= hi)
      && (forall k :: 0 <= k < |r| ==> r[k] == s[Clamp(lo, |s|) + k])
  {
  }

  /** Every element of `box` is one of `pp`. */
  predicate Within(box: seq<nat>, pp: seq<nat>)
  {
    forall j :: 0 <= j < |box| ==> box[j] in pp
  }

  /** A slice holds elements of its list only. */
  lemma SliceWithin(s: seq<nat>, lo: nat, hi: nat)
    ensures Within(ListSlice(s, lo, hi), s)
  {
    SliceIndex(s, lo, hi);
  }

  /** A slice of an ascending list ascends. */
  lemma SliceAscending(s: seq<nat>, lo: nat, hi: nat)
    requires StrictlyIncreasing(s)
    ensures StrictlyIncreasing(ListSlice(s, lo, hi))
  {
    SliceIndex(s, lo, hi);
  }

  /** `box` is the run of list elements in slots `lo`, `lo + 1`, … up to but
      not including `hi`, where `hi` is clamped to the list's length. */
  predicate HoldsSlots(box: seq<nat>, pp: seq<nat>, lo: nat, hi: nat)
  {
    && |box| == Max0(Clamp(hi, |pp|) - lo)
    && forall k :: 0 <= k < |box| ==> lo + k < |pp| && box[k] == pp[lo + k]
  }

  /** A slice holds exactly the slots between its bounds. */
  lemma SliceHoldsSlots(s: seq<nat>, lo: nat, hi: nat)
    ensures HoldsSlots(ListSlice(s, lo, hi), s, lo, hi)
  {
    SliceIndex(s, lo, hi);
  }

  /** Every element of `a` lies below every element of `b`. */
  predicate AllBelow(a: seq<nat>, b: seq<nat>)
  {
    forall i, j :: 0 <= i < |a| && 0 <= j < |b| ==> a[i] < b[j]
  }

  function Max0(x: int): nat
  {
    if x < 0 then 0 else x
  }

  // ---------------------------------------------------------------------
  // The box dictionary `index_boxes`, keyed by cut.

  type Boxes = map<int, seq<nat>>

  /** The keys of a dictionary in insertion order: a key is inserted the first
      time it is assigned, and the box loop assigns the cuts in order. */
  function FirstOccurrences(s: seq<int>): seq<int>
  {
    if |s| == 0 then []
    else
      var init := FirstOccurrences(s[..|s| - 1]);
      if s[|s| - 1] in init then init else init + [s[|s| - 1]]
  }

  /** The insertion order lists every cut once. */
  lemma {:induction false} FirstOccurrencesMembers(s: seq<int>)
    ensures forall x :: x in FirstOccurrences(s) <==> x in s
    ensures forall i, j :: 0 <= i < j < |FirstOccurrences(s)| ==> FirstOccurrences(s)[i] != FirstOccurrences(s)[j]
  {
    if |s| > 0 {
      FirstOccurrencesMembers(s[..|s| - 1]);
      assert s == s[..|s| - 1] + [s[|s| - 1]];
      assert forall x :: x in s <==> x in s[..|s| - 1] || x == s[|s| - 1];
    }
  }

  /** Distinct cuts are their own insertion order. */
  lemma {:induction false} FirstOccurrencesDistinct(s: seq<int>)
    requires forall i, j :: 0 <= i < j < |s| ==> s[i] != s[j]
    ensures FirstOccurrences(s) == s
  {
    if |s| > 0 {
      FirstOccurrencesDistinct(s[..|s| - 1]);
      FirstOccurrencesMembers(s[..|s| - 1]);
      assert s[|s| - 1] !in s[..|s| - 1];
      assert s[..|s| - 1] + [s[|s| - 1]] == s;
    }
  }

  /** Every box holds terminator positions only. */
  predicate BoxesIn(m: Boxes, pp: seq<nat>)
  {
    forall k :: k in m ==> Within(m[k], pp)
  }

  /** Every box is ascending, being a slice of the ascending terminator positions. */
  predicate BoxesAscending(m: Boxes)
  {
    forall k :: k in m ==> StrictlyIncreasing(m[k])
  }

  /** `max(id-3, 0)`: the lowest terminator index of the box around cut `i`. */
  function Low(indices: seq<nat>, i: nat): nat
    requires i < |indices|
  {
    Max0(indices[i] as int - 3)
  }

  /** `bound_id`: the midpoint between the low end of the current box and the
      high end of the previous one. */
  function BoundId(indices: seq<nat>, i: nat): nat
    requires 0 < i < |indices|
  {
    (Low(indices, i) + (indices[i - 1] + 3 + 1)) / 2
  }

  /** `period_positions[max(id-3, 0):id+3+1]`: the box around cut `i`. */
  function FreshBox(pp: seq<nat>, indices: seq<nat>, i: nat): seq<nat>
    requires i < |indices|
  {
    ListSlice(pp, Low(indices, i), indices[i] + 3 + 1)
  }

  /** The previous box re-cut to end at the midpoint, re-sliced from its own low end. */
  function PrevRecut(pp: seq<nat>, indices: seq<nat>, i: nat): seq<nat>
    requires 0 < i < |indices|
  {
    ListSlice(pp, Low(indices, i - 1), BoundId(indices, i) + 1)
  }

  /** The current box re-cut to start after the midpoint; its high end is
      `id+3`, one short of the `id+3+1` of a fresh box. */
  function CurRecut(pp: seq<nat>, indices: seq<nat>, i: nat): seq<nat>
    requires 0 < i < |indices|
  {
    ListSlice(pp, BoundId(indices, i) + 1, indices[i] + 3)
  }

  /** Iteration `i` of the box loop on the dictionary built so far. The
      dictionary is empty exactly before the first iteration, so `if index_boxes:`
      is `i > 0`; the previous box must be non-empty for its `[-1]`. */
  function BoxStep(pp: seq<nat>, indices: seq<nat>, cuts: seq<int>, i: nat, m: Boxes): (r: Result<Boxes>)
    requires |indices| == |cuts| && i < |cuts|
    requires forall k :: 0 <= k < |indices| ==> indices[k] < |pp|
    requires i > 0 ==> cuts[i - 1] in m
    ensures r.Ok? ==> r.value.Keys == m.Keys + {cuts[i]}
    ensures r.Err? ==> r.error == EmptyBox
  {
    if i == 0 then Ok(m[cuts[i] := FreshBox(pp, indices, i)])
    else
      var pre := m[cuts[i - 1]];
      if |pre| == 0 then Err(EmptyBox)
      else if pre[|pre| - 1] < pp[Low(indices, i)] then Ok(m[cuts[i] := FreshBox(pp, indices, i)])
      else Ok(m[cuts[i - 1] := PrevRecut(pp, indices, i)][cuts[i] := CurRecut(pp, indices, i)])
  }

  /** The first `n` cuts as a set. */
  function CutSet(cuts: seq<int>, n: nat): (r: set<int>)
    requires n <= |cuts|
    ensures n > 0 ==> cuts[n - 1] in r
  {
    if n == 0 then {} else CutSet(cuts, n - 1) + {cuts[n - 1]}
  }

  /** The dictionary after the first `n` iterations of the box loop: its keys
      are the first `n` cuts. */
  function BoxesUpTo(pp: seq<nat>, indices: seq<nat>, cuts: seq<int>, n: nat): (r: Result<Boxes>)
    requires |indices| == |cuts| && n <= |cuts|
    requires forall k :: 0 <= k < |indices| ==> indices[k] < |pp|
    ensures r.Ok? ==> r.value.Keys == CutSet(cuts, n)
    ensures r.Err? ==> r.error == EmptyBox
  {
    if n == 0 then Ok(map[])
    else
      var prev := BoxesUpTo(pp, indices, cuts, n - 1);
      if prev.Err? then prev
      else BoxStep(pp, indices, cuts, n - 1, prev.value)
  }

  /** `[idx for idx in box if idx != key]` */
  function Without(box: seq<nat>, key: int): (r: seq<nat>)
    ensures |r| <= |box|
  {
    if |box| == 0 then []
    else (if box[0] == key then [] else [box[0]]) + Without(box[1..], key)
  }

  /** The filtering comprehension drops the key and keeps every other element. */
  lemma {:induction false} WithoutMembers(box: seq<nat>, key: int)
    ensures forall y :: y in Without(box, key) <==> y in box && y != key
  {
    if |box| > 0 {
      WithoutMembers(box[1..], key);
      assert box == [box[0]] + box[1..];
    }
  }

  /** One box after the exclusion pass: with more than one element it loses
      its own cut, otherwise it is kept. */
  function ExcludeOwn(box: seq<nat>, key: int): (r: seq<nat>)
    ensures |box| <= 1 ==> r == box
    ensures |box| > 1 ==> forall y :: y in r <==> y in box && y != key
  {
    if |box| <= 1 then box else WithoutMembers(box, key); Without(box, key)
  }

  /** The exclusion pass over the whole dictionary. */
  function Exclude(m: Boxes): (r: Boxes)
    ensures r.Keys == m.Keys
    ensures forall k :: k in m ==> r[k] == ExcludeOwn(m[k], k)
  {
    map k | k in m :: ExcludeOwn(m[k], k)
  }

  /** What `check_moving_idx_box` returns: the boxes, their keys in the
      dictionary's order, and the cuts. */
  datatype Moving = Moving(boxes: Boxes, order: seq<int>, cuts: seq<int>)

  /** The dictionary when the box loop is over, before the exclusion pass. */
  function BuiltBoxes(strList: seq<Text>, lang: Lang): Result<Boxes>
  {
    var pp := PeriodPositions(Concat(strList), lang);
    var cuts := CutIndices(strList);
    var indices := Indices(pp, cuts);
    if indices.Err? then Err(indices.error)
    else BoxesUpTo(pp, indices.value, cuts, |cuts|)
  }

  /** `check_moving_idx_box(str_list, lang)`. */
  function MovingBoxes(strList: seq<Text>, lang: Lang): Result<Moving>
  {
    var boxes := BuiltBoxes(strList, lang);
    if boxes.Err? then Err(boxes.error)
    else Ok(Moving(Exclude(boxes.value), FirstOccurrences(CutIndices(strList)), CutIndices(strList)))
  }

  // ---------------------------------------------------------------------
  // What the boxes hold.

  /** Assigning a box of terminator positions keeps every box within them. */
  lemma PutWithin(m: Boxes, pp: seq<nat>, key: int, box: seq<nat>)
    requires BoxesIn(m, pp) && Within(box, pp)
    ensures BoxesIn(m[key := box], pp)
  {
  }

  /** Assigning an ascending box keeps every box ascending. */
  lemma PutAscending(m: Boxes, key: int, box: seq<nat>)
    requires BoxesAscending(m) && StrictlyIncreasing(box)
    ensures BoxesAscending(m[key := box])
  {
  }

  /** One iteration keeps every box inside the terminator positions. */
  lemma BoxStepWithin(pp: seq<nat>, indices: seq<nat>, cuts: seq<int>, i: nat, m: Boxes)
    requires |indices| == |cuts| && i < |cuts|
    requires forall k :: 0 <= k < |indices| ==> indices[k] < |pp|
    requires i > 0 ==> cuts[i - 1] in m
    requires BoxStep(pp, indices, cuts, i, m).Ok? && BoxesIn(m, pp)
    ensures BoxesIn(BoxStep(pp, indices, cuts, i, m).value, pp)
  {
    SliceWithin(pp, Low(indices, i), indices[i] + 3 + 1);
    PutWithin(m, pp, cuts[i], FreshBox(pp, indices, i));
    if i > 0 {
      SliceWithin(pp, Low(indices, i - 1), BoundId(indices, i) + 1);
      SliceWithin(pp, BoundId(indices, i) + 1, indices[i] + 3);
      PutWithin(m, pp, cuts[i - 1], PrevRecut(pp, indices, i));
      PutWithin(m[cuts[i - 1] := PrevRecut(pp, indices, i)], pp, cuts[i], CurRecut(pp, indices, i));
    }
  }

  /** One iteration keeps every box ascending when the positions ascend. */
  lemma BoxStepAscending(pp: seq<nat>, indices: seq<nat>, cuts: seq<int>, i: nat, m: Boxes)
    requires |indices| == |cuts| && i < |cuts|
    requires forall k :: 0 <= k < |indices| ==> indices[k] < |pp|
    requires i > 0 ==> cuts[i - 1] in m
    requires BoxStep(pp, indices, cuts, i, m).Ok? && BoxesAscending(m) && StrictlyIncreasing(pp)
    ensures BoxesAscending(BoxStep(pp, indices, cuts, i, m).value)
  {
    SliceAscending(pp, Low(indices, i), indices[i] + 3 + 1);
    PutAscending(m, cuts[i], FreshBox(pp, indices, i));
    if i > 0 {
      SliceAscending(pp, Low(indices, i - 1), BoundId(indices, i) + 1);
      SliceAscending(pp, BoundId(indices, i) + 1, indices[i] + 3);
      PutAscending(m, cuts[i - 1], PrevRecut(pp, indices, i));
      PutAscending(m[cuts[i - 1] := PrevRecut(pp, indices, i)], cuts[i], CurRecut(pp, indices, i));
    }
  }

  /** Every box the loop builds holds terminator positions. */
  lemma {:induction false} BoxesUpToWithin(pp: seq<nat>, indices: seq<nat>, cuts: seq<int>, n: nat)
    requires |indices| == |cuts| && n <= |cuts|
    requires forall k :: 0 <= k < |indices| ==> indices[k] < |pp|
    requires BoxesUpTo(pp, indices, cuts, n).Ok?
    ensures BoxesIn(BoxesUpTo(pp, indices, cuts, n).value, pp)
  {
    if n > 0 {
      BoxesUpToWithin(pp, indices, cuts, n - 1);
      BoxStepWithin(pp, indices, cuts, n - 1, BoxesUpTo(pp, indices, cuts, n - 1).value);
    }
  }

  /** Every box the loop builds ascends when the terminator positions do. */
  lemma {:induction false} BoxesUpToAscending(pp: seq<nat>, indices: seq<nat>, cuts: seq<int>, n: nat)
    requires |indices| == |cuts| && n <= |cuts|
    requires forall k :: 0 <= k < |indices| ==> indices[k] < |pp|
    requires BoxesUpTo(pp, indices, cuts, n).Ok? && StrictlyIncreasing(pp)
    ensures BoxesAscending(BoxesUpTo(pp, indices, cuts, n).value)
  {
    if n > 0 {
      BoxesUpToAscending(pp, indices, cuts, n - 1);
      BoxStepAscending(pp, indices, cuts, n - 1, BoxesUpTo(pp, indices, cuts, n - 1).value);
    }
  }

  /** Elements taken from below a slot all lie below elements taken from at or
      above it. */
  lemma SlicesSeparated(s: seq<nat>, lo1: nat, hi1: nat, lo2: nat, hi2: nat)
    requires StrictlyIncreasing(s) && hi1 <= lo2
    ensures AllBelow(ListSlice(s, lo1, hi1), ListSlice(s, lo2, hi2))
  {
    var a := ListSlice(s, lo1, hi1);
    var b := ListSlice(s, lo2, hi2);
    SliceIndex(s, lo1, hi1);
    SliceIndex(s, lo2, hi2);
    forall i, j | 0 <= i < |a| && 0 <= j < |b| ensures a[i] < b[j] {
      assert Clamp(lo1, |s|) + i < Clamp(lo2, |s|) + j;
    }
  }

  /** An ascending box whose last element is below `s[low]` lies below every
      slice of `s` that starts at `low`. */
  lemma BelowSliceFrom(pre: seq<nat>, s: seq<nat>, low: nat, hi: nat)
    requires StrictlyIncreasing(pre) && StrictlyIncreasing(s)
    requires |pre| > 0 && low < |s| && pre[|pre| - 1] < s[low]
    ensures AllBelow(pre, ListSlice(s, low, hi))
  {
    var b := ListSlice(s, low, hi);
    SliceIndex(s, low, hi);
    forall i, j | 0 <= i < |pre| && 0 <= j < |b| ensures pre[i] < b[j] {
      assert pre[i] <= pre[|pre| - 1];
      assert s[low] <= s[low + j];
    }
  }

  /** Right after iteration `i > 0`, the box of the previous cut lies entirely
      below the box of the current cut, whether the current box was simply added
      or the two boxes were re-cut at the midpoint. */
  lemma StepSeparates(pp: seq<nat>, indices: seq<nat>, cuts: seq<int>, i: nat, m: Boxes)
    requires |indices| == |cuts| && 0 < i < |cuts|
    requires forall k :: 0 <= k < |indices| ==> indices[k] < |pp|
    requires cuts[i - 1] in m && cuts[i - 1] != cuts[i]
    requires StrictlyIncreasing(pp) && StrictlyIncreasing(m[cuts[i - 1]])
    requires BoxStep(pp, indices, cuts, i, m).Ok?
    ensures AllBelow(BoxStep(pp, indices, cuts, i, m).value[cuts[i - 1]],
                     BoxStep(pp, indices, cuts, i, m).value[cuts[i]])
  {
    var pre := m[cuts[i - 1]];
    if pre[|pre| - 1] < pp[Low(indices, i)] {
      var r := m[cuts[i] := FreshBox(pp, indices, i)];
      FreshStep(pp, indices, cuts, i, m);
      FreshBelow(pp, indices, i, pre, r, cuts[i - 1], cuts[i]);
    } else {
      var r := m[cuts[i - 1] := PrevRecut(pp, indices, i)][cuts[i] := CurRecut(pp, indices, i)];
      RecutStep(pp, indices, cuts, i, m);
      RecutBelow(pp, indices, i, r, cuts[i - 1], cuts[i]);
    }
  }

  /** No overlap: every other box stays, and the current cut gets the slots
      `max(id-3, 0)` to `id+3` (clamped at the last terminator), which include
      the cut's own terminator. */
  lemma FreshStep(pp: seq<nat>, indices: seq<nat>, cuts: seq<int>, i: nat, m: Boxes)
    requires |indices| == |cuts| && 0 < i < |cuts|
    requires forall k :: 0 <= k < |indices| ==> indices[k] < |pp|
    requires cuts[i - 1] in m && |m[cuts[i - 1]]| > 0
    requires m[cuts[i - 1]][|m[cuts[i - 1]]| - 1] < pp[Low(indices, i)]
    ensures var r := BoxStep(pp, indices, cuts, i, m);
      && r.Ok?
      && HoldsSlots(r.value[cuts[i]], pp, Low(indices, i), indices[i] + 4)
      && pp[indices[i]] in r.value[cuts[i]]
      && (forall k :: k in m && k != cuts[i] ==> r.value[k] == m[k])
  {
    var box := FreshBox(pp, indices, i);
    SliceHoldsSlots(pp, Low(indices, i), indices[i] + 3 + 1);
    assert box[indices[i] - Low(indices, i)] == pp[indices[i]];
  }

  /** Overlap: every other box stays; the previous cut gets the slots
      `max(prev-3, 0)` to `bound_id`, and the current cut the slots
      `bound_id+1` to `id+2`, one short of a fresh box. */
  lemma RecutStep(pp: seq<nat>, indices: seq<nat>, cuts: seq<int>, i: nat, m: Boxes)
    requires |indices| == |cuts| && 0 < i < |cuts|
    requires forall k :: 0 <= k < |indices| ==> indices[k] < |pp|
    requires cuts[i - 1] in m && |m[cuts[i - 1]]| > 0
    requires m[cuts[i - 1]][|m[cuts[i - 1]]| - 1] >= pp[Low(indices, i)]
    ensures var r := BoxStep(pp, indices, cuts, i, m);
      && r.Ok?
      && (cuts[i - 1] != cuts[i] ==> HoldsSlots(r.value[cuts[i - 1]], pp, Low(indices, i - 1), BoundId(indices, i) + 1))
      && HoldsSlots(r.value[cuts[i]], pp, BoundId(indices, i) + 1, indices[i] + 3)
      && (forall k :: k in m && k != cuts[i - 1] && k != cuts[i] ==> r.value[k] == m[k])
  {
    SliceHoldsSlots(pp, Low(indices, i - 1), BoundId(indices, i) + 1);
    SliceHoldsSlots(pp, BoundId(indices, i) + 1, indices[i] + 3);
  }

  /** A box ending below the low end of the current cut's box lies below the fresh box. */
  lemma FreshBelow(pp: seq<nat>, indices: seq<nat>, i: nat, pre: seq<nat>, r: Boxes, a: int, b: int)
    requires i < |indices| && indices[i] < |pp| && StrictlyIncreasing(pp) && StrictlyIncreasing(pre)
    requires |pre| > 0 && pre[|pre| - 1] < pp[Low(indices, i)]
    requires a in r && b in r && r[a] == pre && r[b] == FreshBox(pp, indices, i)
    ensures AllBelow(r[a], r[b])
  {
    BelowSliceFrom(pre, pp, Low(indices, i), indices[i] + 3 + 1);
  }

  /** The two re-cut boxes are separated by the midpoint. */
  lemma RecutBelow(pp: seq<nat>, indices: seq<nat>, i: nat, r: Boxes, a: int, b: int)
    requires 0 < i < |indices| && StrictlyIncreasing(pp)
    requires a in r && b in r && r[a] == PrevRecut(pp, indices, i) && r[b] == CurRecut(pp, indices, i)
    ensures AllBelow(r[a], r[b])
  {
    SlicesSeparated(pp, Low(indices, i - 1), BoundId(indices, i) + 1, BoundId(indices, i) + 1, indices[i] + 3);
  }

  // ---------------------------------------------------------------------
  // The imperative check_moving_idx_box.

  /** `d[key] = box` on a dictionary kept as a map and its insertion order. */
  method SetItem(boxes: Boxes, order: seq<int>, key: int, box: seq<nat>)
    returns (boxes': Boxes, order': seq<int>)
    ensures boxes' == boxes[key := box]
    ensures order' == if key in boxes then order else order + [key]
  {
    boxes' := boxes[key := box];
    order' := if key in boxes then order else order + [key];
  }

  /** The insertion order grows by the cut when it is new. */
  lemma FirstOccurrencesSnoc(cuts: seq<int>, i: nat)
    requires i < |cuts|
    ensures FirstOccurrences(cuts[..i + 1])
         == if cuts[i] in FirstOccurrences(cuts[..i]) then FirstOccurrences(cuts[..i])
            else FirstOccurrences(cuts[..i]) + [cuts[i]]
  {
    assert cuts[..i + 1][..i] == cuts[..i];
  }

  /** A cut is already a key exactly when an earlier cut equals it. */
  lemma {:induction false} CutSetMembers(cuts: seq<int>, n: nat, x: int)
    requires n <= |cuts|
    ensures x in CutSet(cuts, n) <==> x in cuts[..n]
  {
    if n > 0 {
      CutSetMembers(cuts, n - 1, x);
      assert cuts[..n] == cuts[..n - 1] + [cuts[n - 1]];
    }
  }

  /** The cut loop of `check_moving_idx_box`: the running length minus one
      after each shard of `str_list[:-1]`. */
  method CutLoop(strList: seq<Text>) returns (cutIdxList: seq<int>)
    ensures cutIdxList == CutIndices(strList)
  {
    cutIdxList := [];
    var currentLength := 0;
    var n := if |strList| == 0 then 0 else |strList| - 1;
    var i := 0;
    while i < n
      invariant 0 <= i <= n
      invariant currentLength == |Concat(strList[..i])|
      invariant cutIdxList == CutIndices(strList)[..i]
    {
      ConcatSnoc(strList[..i], strList[i]);
      assert strList[..i + 1] == strList[..i] + [strList[i]];
      currentLength := currentLength + |strList[i]|;
      cutIdxList := cutIdxList + [currentLength - 1];
      i := i + 1;
    }
  }

  /** One pass of the box loop: the overlap test against the previous box and
      the assignments it makes, on the dictionary and its insertion order. */
  method BoxIteration(periodPositions: seq<nat>, indices: seq<nat>, cutIdxList: seq<int>, i: nat,
                      indexBoxes: Boxes, order: seq<int>)
    returns (r: Result<Boxes>, order': seq<int>)
    requires |indices| == |cutIdxList| && i < |cutIdxList|
    requires forall k :: 0 <= k < |indices| ==> indices[k] < |periodPositions|
    requires indexBoxes.Keys == CutSet(cutIdxList, i)
    requires order == FirstOccurrences(cutIdxList[..i])
    ensures i > 0 ==> cutIdxList[i - 1] in indexBoxes
    ensures r == BoxStep(periodPositions, indices, cutIdxList, i, indexBoxes)
    ensures r.Ok? ==> order' == FirstOccurrences(cutIdxList[..i + 1])
  {
    var cutId := cutIdxList[i];
    CutSetMembers(cutIdxList, i, cutId);
    FirstOccurrencesMembers(cutIdxList[..i]);
    FirstOccurrencesSnoc(cutIdxList, i);
    var boxes := indexBoxes;
    order' := order;
    if i == 0 {
      assert boxes == map[];
    }
    if boxes != map[] {
      var minCurrent := periodPositions[Low(indices, i)];
      var pre := boxes[cutIdxList[i - 1]];
      if |pre| == 0 {
        return Err(EmptyBox), order';
      }
      var maxPre := pre[|pre| - 1];
      if maxPre < minCurrent {
        boxes, order' := SetItem(boxes, order', cutId, FreshBox(periodPositions, indices, i));
      } else {
        boxes, order' := SetItem(boxes, order', cutIdxList[i - 1], PrevRecut(periodPositions, indices, i));
        boxes, order' := SetItem(boxes, order', cutId, CurRecut(periodPositions, indices, i));
      }
    } else {
      boxes, order' := SetItem(boxes, order', cutId, FreshBox(periodPositions, indices, i));
    }
    r := Ok(boxes);
  }

  /** Once an iteration fails, the loop's result is that failure. */
  lemma {:induction false} BoxesUpToErrStays(pp: seq<nat>, indices: seq<nat>, cuts: seq<int>, n: nat, m: nat)
    requires |indices| == |cuts| && n <= m <= |cuts|
    requires forall k :: 0 <= k < |indices| ==> indices[k] < |pp|
    requires BoxesUpTo(pp, indices, cuts, n).Err?
    ensures BoxesUpTo(pp, indices, cuts, m) == BoxesUpTo(pp, indices, cuts, n)
  {
    if n < m {
      BoxesUpToErrStays(pp, indices, cuts, n, m - 1);
      BoxesUpToErrNext(pp, indices, cuts, m);
    }
  }

  lemma BoxesUpToErrNext(pp: seq<nat>, indices: seq<nat>, cuts: seq<int>, m: nat)
    requires |indices| == |cuts| && 0 < m <= |cuts|
    requires forall k :: 0 <= k < |indices| ==> indices[k] < |pp|
    requires BoxesUpTo(pp, indices, cuts, m - 1).Err?
    ensures BoxesUpTo(pp, indices, cuts, m) == BoxesUpTo(pp, indices, cuts, m - 1)
  {
  }

  /** The box loop of `check_moving_idx_box`, keeping the dictionary's
      insertion order beside it. */
  method BoxLoop(periodPositions: seq<nat>, indices: seq<nat>, cutIdxList: seq<int>)
    returns (r: Result<Boxes>, order: seq<int>)
    requires |indices| == |cutIdxList|
    requires forall k :: 0 <= k < |indices| ==> indices[k] < |periodPositions|
    ensures r == BoxesUpTo(periodPositions, indices, cutIdxList, |cutIdxList|)
    ensures r.Ok? ==> order == FirstOccurrences(cutIdxList)
  {
    var indexBoxes: Boxes := map[];
    order := [];
    var i := 0;
    while i < |indices|
      invariant 0 <= i <= |indices|
      invariant BoxesUpTo(periodPositions, indices, cutIdxList, i) == Ok(indexBoxes)
      invariant order == FirstOccurrences(cutIdxList[..i])
    {
      var step;
      step, order := BoxIteration(periodPositions, indices, cutIdxList, i, indexBoxes, order);
      if step.Err? {
        BoxesUpToErrStays(periodPositions, indices, cutIdxList, i + 1, |cutIdxList|);
        return step, order;
      }
      indexBoxes := step.value;
      i := i + 1;
    }
    assert cutIdxList[..|cutIdxList|] == cutIdxList;
    r := Ok(indexBoxes);
  }

  /** The exclusion loop of `check_moving_idx_box` over the keys in order. */
  method ExcludeLoop(indexBoxes: Boxes, order: seq<int>) returns (result: Boxes)
    requires forall x :: x in order <==> x in indexBoxes
    requires forall i, j :: 0 <= i < j < |order| ==> order[i] != order[j]
    ensures result == Exclude(indexBoxes)
  {
    result := indexBoxes;
    var j := 0;
    while j < |order|
      invariant 0 <= j <= |order|
      invariant ExcludedUpTo(indexBoxes, order[..j], result)
    {
      var key := order[j];
      ExcludeNext(indexBoxes, order, j, result);
      var value := result[key];
      if |value| > 1 {
        result := result[key := Without(value, key)];
      }
      j := j + 1;
    }
    ExcludeDone(indexBoxes, order, result);
  }

  /** The dictionary after the exclusion loop has visited the keys in `done`. */
  ghost predicate ExcludedUpTo(m: Boxes, done: seq<int>, result: Boxes)
  {
    && result.Keys == m.Keys
    && forall k :: k in m ==> result[k] == if k in done then ExcludeOwn(m[k], k) else m[k]
  }

  /** One pass of the exclusion loop visits the next key. */
  lemma ExcludeNext(m: Boxes, order: seq<int>, j: nat, result: Boxes)
    requires forall x :: x in order <==> x in m
    requires forall i, j :: 0 <= i < j < |order| ==> order[i] != order[j]
    requires j < |order| && ExcludedUpTo(m, order[..j], result)
    ensures order[j] in result && result[order[j]] == m[order[j]]
    ensures var key := order[j];
      ExcludedUpTo(m, order[..j + 1], if |result[key]| > 1 then result[key := Without(result[key], key)] else result)
  {
    var key := order[j];
    assert forall k :: k in order[..j + 1] <==> k in order[..j] || k == key;
    assert key !in order[..j];
  }

  /** Once every key is visited the dictionary is the exclusion pass. */
  lemma ExcludeDone(m: Boxes, order: seq<int>, result: Boxes)
    requires forall x :: x in order <==> x in m
    requires ExcludedUpTo(m, order[..|order|], result)
    ensures result == Exclude(m)
  {
    assert order[..|order|] == order;
  }

  /** `check_moving_idx_box(str_list, lang)`: the terminator scan, the cut
      loop, the index lookups, the box loop and the exclusion loop. */
  method CheckMovingIdxBox(strList: seq<Text>, lang: Lang) returns (r: Result<Moving>)
    ensures r == MovingBoxes(strList, lang)
  {
    var totalStr := Concat(strList);
    var periodPositions := PeriodPositions(totalStr, lang);
    var cutIdxList := CutLoop(strList);
    var found := Indices(periodPositions, cutIdxList);
    if found.Err? {
      return Err(found.error);
    }
    var built, order := BoxLoop(periodPositions, found.value, cutIdxList);
    if built.Err? {
      return Err(built.error);
    }
    FirstOccurrencesMembers(cutIdxList);
    assert cutIdxList[..|cutIdxList|] == cutIdxList;
    assert forall x :: x in built.value <==> x in cutIdxList by {
      forall x ensures x in built.value <==> x in cutIdxList {
        CutSetMembers(cutIdxList, |cutIdxList|, x);
      }
    }
    var indexBoxes := ExcludeLoop(built.value, order);
    return Ok(Moving(indexBoxes, order, cutIdxList));
  }

  // ---------------------------------------------------------------------
  // What check_moving_idx_box promises.

  /** Each cut is the position of the last character of its shard in the
      joined text. */
  lemma CutEndsShard(strList: seq<Text>, i: nat)
    requires i + 1 < |strList| && |strList[i]| > 0
    ensures 0 <= CutIndices(strList)[i] < |Concat(strList)|
    ensures Concat(strList)[CutIndices(strList)[i]] == strList[i][|strList[i]| - 1]
  {
    assert strList == strList[..i + 1] + strList[i + 1..];
    assert strList[..i + 1] == strList[..i] + [strList[i]];
    ConcatAppend(strList[..i + 1], strList[i + 1..]);
    ConcatSnoc(strList[..i], strList[i]);
  }

  /** The lookups fail exactly when a cut is not a terminator position; the box
      loop fails only on an empty previous box. */
  lemma MovingBoxesErrors(strList: seq<Text>, lang: Lang)
    ensures var pp := PeriodPositions(Concat(strList), lang); var cuts := CutIndices(strList);
      && (MovingBoxes(strList, lang) == Err(NotATerminator) <==> exists k :: 0 <= k < |cuts| && cuts[k] !in pp)
      && (MovingBoxes(strList, lang).Err? ==> MovingBoxes(strList, lang).error in {NotATerminator, EmptyBox})
  {
  }

  /** The keys: every cut once, in the order the cuts come. */
  lemma MovingBoxesKeys(strList: seq<Text>, lang: Lang)
    requires MovingBoxes(strList, lang).Ok?
    ensures var mv := MovingBoxes(strList, lang).value;
      && mv.cuts == CutIndices(strList)
      && (forall x :: x in mv.order <==> x in mv.cuts)
      && (forall x :: x in mv.boxes <==> x in mv.cuts)
      && (forall i, j :: 0 <= i < j < |mv.order| ==> mv.order[i] != mv.order[j])
  {
    var cuts := CutIndices(strList);
    FirstOccurrencesMembers(cuts);
    assert cuts[..|cuts|] == cuts;
    forall x ensures x in MovingBoxes(strList, lang).value.boxes <==> x in cuts {
      CutSetMembers(cuts, |cuts|, x);
    }
  }

  /** Distinct cuts, the usual case, are the key order itself. */
  lemma MovingBoxesOrder(strList: seq<Text>, lang: Lang)
    requires MovingBoxes(strList, lang).Ok?
    requires StrictlyIncreasing(CutIndices(strList))
    ensures MovingBoxes(strList, lang).value.order == CutIndices(strList)
  {
    FirstOccurrencesDistinct(CutIndices(strList));
  }

  /** Every box element is a terminator position of the joined text. */
  lemma MovingBoxesTerminators(strList: seq<Text>, lang: Lang)
    requires MovingBoxes(strList, lang).Ok?
    ensures var mv := MovingBoxes(strList, lang).value; var d := Concat(strList);
      forall k, j :: k in mv.boxes && 0 <= j < |mv.boxes[k]| ==>
        mv.boxes[k][j] < |d| && d[mv.boxes[k][j]] == Terminator(lang)
  {
    var d := Concat(strList);
    var pp := PeriodPositions(d, lang);
    PeriodPositionsSpec(d, lang);
    var cuts := CutIndices(strList);
    var indices := Indices(pp, cuts).value;
    BoxesUpToWithin(pp, indices, cuts, |cuts|);
    var built := BuiltBoxes(strList, lang).value;
    var mv := MovingBoxes(strList, lang).value;
    forall k, j | k in mv.boxes && 0 <= j < |mv.boxes[k]|
      ensures mv.boxes[k][j] < |d| && d[mv.boxes[k][j]] == Terminator(lang)
    {
      assert mv.boxes[k][j] in mv.boxes[k];
      assert mv.boxes[k][j] in built[k];
      assert Within(built[k], pp);
      var x :| x in built[k] && x == mv.boxes[k][j];
      var q :| 0 <= q < |built[k]| && built[k][q] == x;
      assert built[k][q] in pp;
    }
  }

  /** The exclusion pass: a box with more than one element loses its own cut and
      keeps every other element; a box of at most one element is unchanged. */
  lemma MovingBoxesExclusion(strList: seq<Text>, lang: Lang)
    requires MovingBoxes(strList, lang).Ok?
    ensures var mv := MovingBoxes(strList, lang).value; var built := BuiltBoxes(strList, lang).value;
      && mv.boxes.Keys == built.Keys
      && (forall k :: k in built && |built[k]| <= 1 ==> mv.boxes[k] == built[k])
      && (forall k, y :: k in built && |built[k]| > 1 ==> (y in mv.boxes[k] <==> y in built[k] && y != k))
  {
  }

  // ---------------------------------------------------------------------
  // The quirks of the overlap cut, on concrete positions (slot k holds k).

  /** Cut slots 5, 6, 7: the re-cut for 7 re-slices the box of 6 from slot 3,
      so the boxes of 5 and 6 overlap on slots 3 to 6. */
  lemma OverlapReachesBack()
    ensures var pp := seq(20, k => k);
      BoxesUpTo(pp, [5, 6, 7], [5, 6, 7], 3) == Ok(map[5 := [2, 3, 4, 5, 6], 6 := [3, 4, 5, 6, 7], 7 := [8, 9]])
  {
    var pp := seq(20, k => k);
    var ix: seq<nat> := [5, 6, 7];
    var m2 := map[5 := [2, 3, 4, 5, 6], 6 := [7, 8]];
    assert BoxesUpTo(pp, ix, ix, 2) == Ok(m2) by {
      OverlapTwoBoxes();
    }
    assert PrevRecut(pp, ix, 2) == [3, 4, 5, 6, 7] by {
      assert Low(ix, 1) == 3 && BoundId(ix, 2) == 7;
      assert pp[3..8] == [3, 4, 5, 6, 7];
    }
    assert CurRecut(pp, ix, 2) == [8, 9] by {
      assert BoundId(ix, 2) == 7;
      assert pp[8] == 8 && pp[9] == 9;
      assert pp[8..10] == [8, 9];
    }
    assert m2[6][|m2[6]| - 1] >= pp[Low(ix, 2)];
    assert BoxesUpTo(pp, ix, ix, 3) == Ok(m2[6 := [3, 4, 5, 6, 7]][7 := [8, 9]]);
    assert m2[6 := [3, 4, 5, 6, 7]][7 := [8, 9]] == map[5 := [2, 3, 4, 5, 6], 6 := [3, 4, 5, 6, 7], 7 := [8, 9]];
  }

  /** The first two iterations of `OverlapReachesBack`: the second cut overlaps
      the first box, and both are re-cut at the midpoint. */
  lemma OverlapTwoBoxes()
    ensures var pp := seq(20, k => k);
      BoxesUpTo(pp, [5, 6, 7], [5, 6, 7], 2) == Ok(map[5 := [2, 3, 4, 5, 6], 6 := [7, 8]])
  {
    var pp := seq(20, k => k);
    var ix: seq<nat> := [5, 6, 7];
    var m1 := map[5 := [2, 3, 4, 5, 6, 7, 8]];
    assert BoxesUpTo(pp, ix, ix, 1) == Ok(m1) by {
      assert pp[2..9] == [2, 3, 4, 5, 6, 7, 8];
    }
    assert PrevRecut(pp, ix, 1) == [2, 3, 4, 5, 6] by {
      assert Low(ix, 0) == 2 && BoundId(ix, 1) == 6;
      assert pp[2..7] == [2, 3, 4, 5, 6];
    }
    assert CurRecut(pp, ix, 1) == [7, 8] by {
      assert BoundId(ix, 1) == 6;
      assert pp[7] == 7 && pp[8] == 8;
      assert pp[7..9] == [7, 8];
    }
    assert m1[5][|m1[5]| - 1] >= pp[Low(ix, 1)];
    assert BoxesUpTo(pp, ix, ix, 2) == Ok(m1[5 := [2, 3, 4, 5, 6]][6 := [7, 8]]);
    assert m1[5 := [2, 3, 4, 5, 6]][6 := [7, 8]] == map[5 := [2, 3, 4, 5, 6], 6 := [7, 8]];
  }

  /** A slot run that reaches the end of the list ends with its last element. */
  lemma SlotsToEnd(box: seq<nat>, pp: seq<nat>, lo: nat, hi: nat)
    requires HoldsSlots(box, pp, lo, hi) && hi >= |pp| && |box| > 0
    ensures box[|box| - 1] == pp[|pp| - 1]
  {
    assert lo + |box| == |pp|;
  }

  /** The box an iteration gives its own cut ends with the last terminator
      when the cut is within three slots of the end. */
  lemma OwnBoxReachesEnd(pp: seq<nat>, indices: seq<nat>, cuts: seq<int>, j: nat, m: Boxes, r: Boxes)
    requires |indices| == |cuts| && j < |cuts|
    requires forall k :: 0 <= k < |indices| ==> indices[k] < |pp|
    requires j > 0 ==> cuts[j - 1] in m
    requires BoxStep(pp, indices, cuts, j, m) == Ok(r) && indices[j] + 3 >= |pp|
    ensures cuts[j] in r && (|r[cuts[j]]| > 0 ==> r[cuts[j]][|r[cuts[j]]| - 1] == pp[|pp| - 1])
  {
    var box := r[cuts[j]];
    if |box| > 0 {
      if j == 0 || m[cuts[j - 1]][|m[cuts[j - 1]]| - 1] < pp[Low(indices, j)] {
        SliceHoldsSlots(pp, Low(indices, j), indices[j] + 3 + 1);
        SlotsToEnd(box, pp, Low(indices, j), indices[j] + 3 + 1);
      } else {
        SliceHoldsSlots(pp, BoundId(indices, j) + 1, indices[j] + 3);
        SlotsToEnd(box, pp, BoundId(indices, j) + 1, indices[j] + 3);
      }
    }
  }


  /** A successful run of `n` iterations is iteration `n - 1` on a successful
      run of `n - 1`. */
  lemma BoxesUpToLast(pp: seq<nat>, indices: seq<nat>, cuts: seq<int>, n: nat)
    requires |indices| == |cuts| && 0 < n <= |cuts|
    requires forall k :: 0 <= k < |indices| ==> indices[k] < |pp|
    requires BoxesUpTo(pp, indices, cuts, n).Ok?
    ensures BoxesUpTo(pp, indices, cuts, n - 1).Ok?
    ensures n - 1 > 0 ==> cuts[n - 2] in BoxesUpTo(pp, indices, cuts, n - 1).value
    ensures BoxesUpTo(pp, indices, cuts, n) == BoxStep(pp, indices, cuts, n - 1, BoxesUpTo(pp, indices, cuts, n - 1).value)
  {
  }

  /** The last iteration, on the last slot, after a box that reaches the last
      terminator: the overlap branch runs and the midpoint is at or past the
      last slot, so the current box is empty. */
  lemma LastStepEmpty(pp: seq<nat>, indices: seq<nat>, cuts: seq<int>, i: nat, m: Boxes)
    requires |indices| == |cuts| && 0 < i < |cuts|
    requires forall k :: 0 <= k < |indices| ==> indices[k] < |pp|
    requires |pp| > 0 && forall k :: 0 <= k < |pp| ==> pp[k] <= pp[|pp| - 1]
    requires indices[i - 1] + 2 == |pp| && indices[i] + 1 == |pp|
    requires cuts[i - 1] in m && |m[cuts[i - 1]]| > 0
    requires m[cuts[i - 1]][|m[cuts[i - 1]]| - 1] == pp[|pp| - 1]
    ensures BoxStep(pp, indices, cuts, i, m).Ok?
    ensures BoxStep(pp, indices, cuts, i, m).value[cuts[i]] == []
  {
    var low := Low(indices, i);
    assert low <= |pp| - 1;
    assert pp[low] <= pp[|pp| - 1];
    assert BoundId(indices, i) + 1 >= |pp|;
    RecutStep(pp, indices, cuts, i, m);
  }

  /** When the last two cuts sit on the last two terminator slots, the box
      loop leaves the last box empty: the previous box reaches the last
      terminator, so the overlap branch runs, and its midpoint lies at or past
      the last slot. */
  lemma FinalBoxEmptySlots(pp: seq<nat>, indices: seq<nat>, cuts: seq<int>)
    requires |indices| == |cuts| >= 2
    requires forall k :: 0 <= k < |indices| ==> indices[k] < |pp|
    requires |pp| > 0 && forall k :: 0 <= k < |pp| ==> pp[k] <= pp[|pp| - 1]
    requires indices[|cuts| - 2] + 2 == |pp| && indices[|cuts| - 1] + 1 == |pp|
    requires BoxesUpTo(pp, indices, cuts, |cuts|).Ok?
    ensures BoxesUpTo(pp, indices, cuts, |cuts|).value[cuts[|cuts| - 1]] == []
  {
    var i := |cuts| - 1;
    PreviousReachesEnd(pp, indices, cuts);
    LastStepEmpty(pp, indices, cuts, i, BoxesUpTo(pp, indices, cuts, i).value);
  }

  /** Before the last iteration, under the same conditions, the previous box is
      non-empty and ends with the last terminator. */
  lemma PreviousReachesEnd(pp: seq<nat>, indices: seq<nat>, cuts: seq<int>)
    requires |indices| == |cuts| >= 2
    requires forall k :: 0 <= k < |indices| ==> indices[k] < |pp|
    requires indices[|cuts| - 2] + 2 == |pp|
    requires BoxesUpTo(pp, indices, cuts, |cuts|).Ok?
    ensures BoxesUpTo(pp, indices, cuts, |cuts| - 1).Ok?
    ensures var prev := BoxesUpTo(pp, indices, cuts, |cuts| - 1).value;
      && cuts[|cuts| - 2] in prev && |prev[cuts[|cuts| - 2]]| > 0
      && prev[cuts[|cuts| - 2]][|prev[cuts[|cuts| - 2]]| - 1] == pp[|pp| - 1]
      && BoxesUpTo(pp, indices, cuts, |cuts|) == BoxStep(pp, indices, cuts, |cuts| - 1, prev)
  {
    var i := |cuts| - 1;
    BoxesUpToLast(pp, indices, cuts, i + 1);
    BoxesUpToLast(pp, indices, cuts, i);
    PrevBoxReachesEnd(pp, indices, cuts, i, BoxesUpTo(pp, indices, cuts, i - 1).value,
                      BoxesUpTo(pp, indices, cuts, i).value);
  }

  /** Two consecutive iterations: if the first is within three slots of the
      end and the second succeeds, the box the first built is non-empty and
      ends with the last terminator. */
  lemma PrevBoxReachesEnd(pp: seq<nat>, indices: seq<nat>, cuts: seq<int>, i: nat, m0: Boxes, prev: Boxes)
    requires |indices| == |cuts| && 0 < i < |cuts|
    requires forall k :: 0 <= k < |indices| ==> indices[k] < |pp|
    requires i - 1 > 0 ==> cuts[i - 2] in m0
    requires BoxStep(pp, indices, cuts, i - 1, m0) == Ok(prev) && indices[i - 1] + 3 >= |pp|
    requires BoxStep(pp, indices, cuts, i, prev).Ok?
    ensures cuts[i - 1] in prev && |prev[cuts[i - 1]]| > 0
    ensures prev[cuts[i - 1]][|prev[cuts[i - 1]]| - 1] == pp[|pp| - 1]
  {
    StepNeedsPrevious(pp, indices, cuts, i, prev);
    OwnBoxReachesEnd(pp, indices, cuts, i - 1, m0, prev);
  }

  /** An iteration after the first succeeds only on a non-empty previous box:
      `index_boxes[cut_idx_list[i-1]][-1]` raises on an empty one. */
  lemma StepNeedsPrevious(pp: seq<nat>, indices: seq<nat>, cuts: seq<int>, i: nat, m: Boxes)
    requires |indices| == |cuts| && 0 < i < |cuts|
    requires forall k :: 0 <= k < |indices| ==> indices[k] < |pp|
    requires cuts[i - 1] in m && BoxStep(pp, indices, cuts, i, m).Ok?
    ensures |m[cuts[i - 1]]| > 0
  {
  }

  /** The last element of an ascending list is its maximum. */
  lemma LastIsMax(pp: seq<nat>)
    requires StrictlyIncreasing(pp) && |pp| > 0
    ensures forall k :: 0 <= k < |pp| ==> pp[k] <= pp[|pp| - 1]
  {
  }

  /** Two slots holding the same position of an ascending list are one slot. */
  lemma SameSlot(pp: seq<nat>, x: nat, j: nat)
    requires StrictlyIncreasing(pp) && x < |pp| && j < |pp| && pp[x] == pp[j]
    ensures x == j
  {
  }

  /** `check_moving_idx_box` on a document whose last two terminators are both
      cuts returns an empty box for the last cut. `pp` and `cuts` name the
      terminator positions of the joined text and the cuts. */
  lemma FinalBoxEmpty(strList: seq<Text>, lang: Lang, pp: seq<nat>, cuts: seq<int>)
    requires pp == PeriodPositions(Concat(strList), lang) && cuts == CutIndices(strList)
    requires MovingBoxes(strList, lang).Ok?
    requires |cuts| >= 2 && |pp| >= 2
    requires cuts[|cuts| - 2] == pp[|pp| - 2] && cuts[|cuts| - 1] == pp[|pp| - 1]
    ensures cuts[|cuts| - 1] in MovingBoxes(strList, lang).value.boxes
    ensures MovingBoxes(strList, lang).value.boxes[cuts[|cuts| - 1]] == []
  {
    MovingBoxesBuilt(strList, lang, pp, cuts);
    FinalBoxEmptyCuts(pp, cuts, Concat(strList), lang);
    ExcludeKeepsEmpty(BoxesUpTo(pp, Indices(pp, cuts).value, cuts, |cuts|).value, cuts[|cuts| - 1]);
  }

  /** The exclusion pass leaves an empty box empty. */
  lemma ExcludeKeepsEmpty(m: Boxes, key: int)
    requires key in m && m[key] == []
    ensures key in Exclude(m) && Exclude(m)[key] == []
  {
  }

  /** The same on the loop's own inputs: the terminator positions of the
      document and the cuts. */
  lemma FinalBoxEmptyCuts(pp: seq<nat>, cuts: seq<int>, d: Text, lang: Lang)
    requires pp == PeriodPositions(d, lang)
    requires |cuts| >= 2 && |pp| >= 2
    requires cuts[|cuts| - 2] == pp[|pp| - 2] && cuts[|cuts| - 1] == pp[|pp| - 1]
    requires Indices(pp, cuts).Ok? && BoxesUpTo(pp, Indices(pp, cuts).value, cuts, |cuts|).Ok?
    ensures var built := BoxesUpTo(pp, Indices(pp, cuts).value, cuts, |cuts|).value;
      cuts[|cuts| - 1] in built && built[cuts[|cuts| - 1]] == []
  {
    var indices := Indices(pp, cuts).value;
    var n := |cuts|;
    assert indices[n - 2] < |pp| && pp[indices[n - 2]] == cuts[n - 2];
    assert indices[n - 1] < |pp| && pp[indices[n - 1]] == cuts[n - 1];
    LastTwoSlots(pp, indices, cuts, d, lang);
    FinalBoxEmptySlots(pp, indices, cuts);
  }

  /** How `MovingBoxes` is assembled from the lookups and the box loop. */
  lemma MovingBoxesBuilt(strList: seq<Text>, lang: Lang, pp: seq<nat>, cuts: seq<int>)
    requires pp == PeriodPositions(Concat(strList), lang) && cuts == CutIndices(strList)
    requires MovingBoxes(strList, lang).Ok?
    ensures Indices(pp, cuts).Ok?
    ensures BoxesUpTo(pp, Indices(pp, cuts).value, cuts, |cuts|).Ok?
    ensures MovingBoxes(strList, lang).value.boxes == Exclude(BoxesUpTo(pp, Indices(pp, cuts).value, cuts, |cuts|).value)
  {
  }

  /** Cuts on the last two terminators have the last two slots as indices. */
  lemma LastTwoSlots(pp: seq<nat>, indices: seq<nat>, cuts: seq<int>, d: Text, lang: Lang)
    requires pp == PeriodPositions(d, lang)
    requires |indices| == |cuts| >= 2 && |pp| >= 2
    requires indices[|cuts| - 2] < |pp| && pp[indices[|cuts| - 2]] == cuts[|cuts| - 2]
    requires indices[|cuts| - 1] < |pp| && pp[indices[|cuts| - 1]] == cuts[|cuts| - 1]
    requires cuts[|cuts| - 2] == pp[|pp| - 2] && cuts[|cuts| - 1] == pp[|pp| - 1]
    ensures indices[|cuts| - 2] + 2 == |pp| && indices[|cuts| - 1] + 1 == |pp|
    ensures forall k :: 0 <= k < |pp| ==> pp[k] <= pp[|pp| - 1]
  {
    PeriodPositionsAscending(d, lang);
    var n := |cuts|;
    SameSlot(pp, indices[n - 2], |pp| - 2);
    SameSlot(pp, indices[n - 1], |pp| - 1);
    LastIsMax(pp);
  }

  /** The terminator positions come in ascending order. */
  lemma PeriodPositionsAscending(d: Text, lang: Lang)
    ensures StrictlyIncreasing(PeriodPositions(d, lang))
  {
    PeriodPositionsSpec(d, lang);
  }

  // ---------------------------------------------------------------------
  // gen_moved_text

  /** `gen_moved_text(text_list, cut_idx_list, needles)`: the text is
      re-joined, cut after each given position, and the needles are spliced in;
      the assertion on the shard count fails unless there is one cut per needle. */
  function GenMoved(textList: seq<Text>, cuts: seq<nat>, needles: seq<Text>): Result<Text>
  {
    if |cuts| != |needles| then Err(ShardCountMismatch)
    else Ok(Interleave(PyShards(Concat(textList), cuts), needles))
  }

  /** The imperative original: the join, the shard loop, the assertion and the
      accumulation loop. */
  method GenMovedText(textList: seq<Text>, cutIdxList: seq<nat>, needles: seq<Text>) returns (r: Result<Text>)
    ensures r == GenMoved(textList, cutIdxList, needles)
  {
    var textStr := Concat(textList);
    var shardText := CutShards(textStr, cutIdxList);
    if |shardText| != |needles| + 1 {
      return Err(ShardCountMismatch);
    }
    var newText := SpliceShards(shardText, needles);
    return Ok(newText);
  }

  /** For strictly increasing cuts inside the joined text, the shards
      concatenate back to it, and the moved text is what
      `insert_needles_to_text` makes of those shards. */
  lemma GenMovedIsSplice(textList: seq<Text>, cuts: seq<nat>, needles: seq<Text>)
    requires StrictlyIncreasing(cuts) && CutsBelow(cuts, |Concat(textList)|) && |cuts| == |needles|
    ensures Concat(PyShards(Concat(textList), cuts)) == Concat(textList)
    ensures GenMoved(textList, cuts, needles)
         == Ok(JoinLines(Alternate(PyShards(Concat(textList), cuts), needles)))
  {
    ShardsConcat(Concat(textList), cuts);
    JoinAlternate(PyShards(Concat(textList), cuts), needles);
  }

  /** The two frames of a move: cuts shifted by the offset of the document in
      the prompt splice the prompt exactly as the cuts splice the document. */
  lemma GenMovedFrames(inputTextList: seq<Text>, textList: seq<Text>, p: Text, s: Text,
                       cuts: seq<nat>, needles: seq<Text>)
    requires Concat(inputTextList) == p + Concat(textList) + s
    requires CutsBelow(cuts, |Concat(textList)|) && |cuts| == |needles|
    ensures GenMoved(inputTextList, Shift(cuts, |p|), needles)
         == Ok(p + GenMoved(textList, cuts, needles).value + s)
  {
    SpliceTwoFrames(p, Concat(textList), s, cuts, needles);
  }

  // ---------------------------------------------------------------------
  // make_little_moving

  /** The `random.choice` draws of the little move: one index per box, in key
      order, inside its box whenever the box is not empty. */
  predicate PicksFit(mv: Moving, picks: seq<nat>)
  {
    && |picks| == |mv.order|
    && forall j :: 0 <= j < |mv.order| ==>
         mv.order[j] in mv.boxes && (|mv.boxes[mv.order[j]]| > 0 ==> picks[j] < |mv.boxes[mv.order[j]]|)
  }

  /** The new cuts of the little move, one pick per box in key order;
      `random.choice` on an empty box raises. */
  function LittleCuts(mv: Moving, picks: seq<nat>): (r: Result<seq<nat>>)
    requires PicksFit(mv, picks)
    ensures r.Err? <==> exists j :: 0 <= j < |mv.order| && |mv.boxes[mv.order[j]]| == 0
    ensures r.Err? ==> r.error == EmptyBox
    ensures r.Ok? ==> |r.value| == |mv.order|
    ensures r.Ok? ==> forall j :: 0 <= j < |mv.order| ==> r.value[j] in mv.boxes[mv.order[j]]
  {
    if exists j :: 0 <= j < |mv.order| && |mv.boxes[mv.order[j]]| == 0 then Err(EmptyBox)
    else Ok(seq(|mv.order|, j requires 0 <= j < |mv.order| => mv.boxes[mv.order[j]][picks[j]]))
  }

  /** The precondition the draws of `make_little_moving` satisfy whenever the
      boxes could be built. */
  predicate LittleFits(textList: seq<Text>, lang: Lang, picks: seq<nat>)
  {
    MovingBoxes(textList, lang).Ok? ==> PicksFit(MovingBoxes(textList, lang).value, picks)
  }

  /** `make_little_moving(needles, input_text_list, text_list, lang, start_idx)`
      with the `random.choice` draws as `picks`: the new prompt text and the new
      document text. */
  function LittleMoving(needles: seq<Text>, inputTextList: seq<Text>, textList: seq<Text>,
                        lang: Lang, startIdx: nat, picks: seq<nat>): Result<(Text, Text)>
    requires LittleFits(textList, lang, picks)
  {
    if |inputTextList| != |needles| + 1 || |textList| != |needles| + 1 then Err(ShardCountMismatch)
    else
      var mv := MovingBoxes(textList, lang);
      if mv.Err? then Err(mv.error)
      else
        var cuts := LittleCuts(mv.value, picks);
        if cuts.Err? then Err(cuts.error)
        else
          if |cuts.value| != |needles| then Err(ShardCountMismatch)
          else Ok((GenMoved(inputTextList, Shift(cuts.value, startIdx), needles).value,
                   GenMoved(textList, cuts.value, needles).value))
  }

  /** The loop of `make_little_moving`: one `random.choice` per box in key order,
      appended to the document cuts and, shifted by `start_idx`, to the prompt
      cuts. */
  method PickLoop(mv: Moving, picks: seq<nat>, startIdx: nat) returns (r: Result<seq<nat>>, inputCuts: seq<nat>)
    requires PicksFit(mv, picks)
    ensures r == LittleCuts(mv, picks)
    ensures r.Ok? ==> inputCuts == Shift(r.value, startIdx)
  {
    var newInputTextCutIdxList: seq<nat> := [];
    var newTextCutIdxList: seq<nat> := [];
    var j := 0;
    while j < |mv.order|
      invariant 0 <= j <= |mv.order|
      invariant |newTextCutIdxList| == j
      invariant forall k :: 0 <= k < j ==> |mv.boxes[mv.order[k]]| > 0
      invariant forall k :: 0 <= k < j ==> newTextCutIdxList[k] == mv.boxes[mv.order[k]][picks[k]]
      invariant newInputTextCutIdxList == Shift(newTextCutIdxList, startIdx)
    {
      var textMovingBox := mv.boxes[mv.order[j]];
      if |textMovingBox| == 0 {
        return Err(EmptyBox), newInputTextCutIdxList;
      }
      var chosenId := picks[j];
      newTextCutIdxList := newTextCutIdxList + [textMovingBox[chosenId]];
      newInputTextCutIdxList := newInputTextCutIdxList + [textMovingBox[chosenId] + startIdx];
      j := j + 1;
    }
    assert !exists k :: 0 <= k < |mv.order| && |mv.boxes[mv.order[k]]| == 0;
    assert LittleCuts(mv, picks).value == newTextCutIdxList;
    return Ok(newTextCutIdxList), newInputTextCutIdxList;
  }

  /** The imperative original: the two assertions, the boxes, the pick loop and
      the two moved texts. */
  method MakeLittleMoving(needles: seq<Text>, inputTextList: seq<Text>, textList: seq<Text>,
                          lang: Lang, startIdx: nat, picks: seq<nat>)
    returns (r: Result<(Text, Text)>)
    requires LittleFits(textList, lang, picks)
    ensures r == LittleMoving(needles, inputTextList, textList, lang, startIdx, picks)
  {
    if |inputTextList| != |needles| + 1 || |textList| != |needles| + 1 {
      return Err(ShardCountMismatch);
    }
    var found := CheckMovingIdxBox(textList, lang);
    if found.Err? {
      return Err(found.error);
    }
    var cuts, inputCuts := PickLoop(found.value, picks, startIdx);
    if cuts.Err? {
      return Err(cuts.error);
    }
    var newInputText := GenMovedText(inputTextList, inputCuts, needles);
    if newInputText.Err? {
      return Err(newInputText.error);
    }
    var newText := GenMovedText(textList, cuts.value, needles);
    return Ok((newInputText.value, newText.value));
  }

  /** Each little-move cut is an element of its own box, taken in key order,
      and so a terminator position of the joined document; there is one per
      needle. */
  lemma LittleMoveCuts(needles: seq<Text>, inputTextList: seq<Text>, textList: seq<Text>,
                       lang: Lang, startIdx: nat, picks: seq<nat>)
    requires LittleFits(textList, lang, picks)
    requires LittleMoving(needles, inputTextList, textList, lang, startIdx, picks).Ok?
    ensures MovingBoxes(textList, lang).Ok?
    ensures LittleCuts(MovingBoxes(textList, lang).value, picks).Ok?
    ensures var mv := MovingBoxes(textList, lang).value; var cuts := LittleCuts(mv, picks).value;
      var d := Concat(textList);
      && |cuts| == |mv.order| == |needles|
      && (forall j :: 0 <= j < |cuts| ==> cuts[j] in mv.boxes[mv.order[j]])
      && (forall j :: 0 <= j < |cuts| ==> cuts[j] < |d| && d[cuts[j]] == Terminator(lang))
      && LittleMoving(needles, inputTextList, textList, lang, startIdx, picks).value.1
         == Interleave(PyShards(d, cuts), needles)
  {
    var mv := MovingBoxes(textList, lang).value;
    var cuts := LittleCuts(mv, picks).value;
    MovingBoxesTerminators(textList, lang);
    forall j | 0 <= j < |cuts| ensures cuts[j] < |Concat(textList)| && Concat(textList)[cuts[j]] == Terminator(lang) {
      var box := mv.boxes[mv.order[j]];
      var q :| 0 <= q < |box| && box[q] == cuts[j];
    }
  }

  /** The two frames of the little move: when the joined prompt shards are the
      joined document shards between a prefix of length `start_idx` and a
      suffix, the new prompt text is the new document text between them. */
  lemma LittleMoveFrames(needles: seq<Text>, inputTextList: seq<Text>, textList: seq<Text>,
                         lang: Lang, p: Text, s: Text, picks: seq<nat>)
    requires LittleFits(textList, lang, picks)
    requires LittleMoving(needles, inputTextList, textList, lang, |p|, picks).Ok?
    requires Concat(inputTextList) == p + Concat(textList) + s
    ensures var r := LittleMoving(needles, inputTextList, textList, lang, |p|, picks).value;
      r.0 == p + r.1 + s
  {
    LittleMoveCuts(needles, inputTextList, textList, lang, |p|, picks);
    var cuts := LittleCuts(MovingBoxes(textList, lang).value, picks).value;
    GenMovedFrames(inputTextList, textList, p, s, cuts, needles);
  }

  /** A text of `n` full stops. */
  function Dots(n: nat): (r: Text)
    ensures |r| == n && forall k :: 0 <= k < n ==> r[k] == '.'
  {
    seq(n, _ => '.')
  }

  /** Every character of a run of full stops is an English terminator. */
  lemma {:induction false} DotsPositions(n: nat)
    ensures PeriodPositions(Dots(n), En) == seq(n, k => k)
  {
    if n > 0 {
      DotsPositions(n - 1);
      assert Dots(n)[..n - 1] == Dots(n - 1);
      assert seq(n - 1, k => k) + [n - 1] == seq(n, k => k);
    }
  }

  /** Twenty full stops in shards of 6, 1, 1 and 12 characters: the cuts fall
      on terminator slots 5, 6 and 7. */
  function OverlapShards(): seq<Text>
  {
    [Dots(6), Dots(1), Dots(1), Dots(12)]
  }

  /** The joined shards, their terminators and their cuts. */
  lemma OverlapShardsCuts()
    ensures Concat(OverlapShards()) == Dots(20)
    ensures PeriodPositions(Concat(OverlapShards()), En) == seq(20, k => k)
    ensures CutIndices(OverlapShards()) == [5, 6, 7]
  {
    var l := OverlapShards();
    assert Concat(l[3..]) == Dots(12) by {
      assert l[3..][1..] == [];
    }
    assert l[2..][1..] == l[3..];
    assert l[1..][1..] == l[2..];
    assert l[1..] == [l[1]] + l[2..];
    assert Concat(l) == Dots(6) + Dots(1) + Dots(1) + Dots(12);
    assert Concat(l) == Dots(20);
    DotsPositions(20);
    assert |Concat(l[..1])| == 6 by {
      assert l[..1][1..] == [];
    }
    assert |Concat(l[..2])| == 7 by {
      assert l[..2][1..] == [l[1]];
      assert [l[1]][1..] == [];
    }
    assert |Concat(l[..3])| == 8 by {
      assert l[..3][1..] == [l[1], l[2]];
      assert [l[1], l[2]][1..] == [l[2]];
      assert [l[2]][1..] == [];
    }
  }

  /** `check_moving_idx_box` on `OverlapShards()`: the boxes of `OverlapReachesBack`
      after the exclusion pass, keyed in cut order. */
  lemma OverlapRun()
    ensures MovingBoxes(OverlapShards(), En)
         == Ok(Moving(map[5 := [2, 3, 4, 6], 6 := [3, 4, 5, 7], 7 := [8, 9]], [5, 6, 7], [5, 6, 7]))
  {
    OverlapBuilt();
    OverlapShardsCuts();
    ExcludeOverlap();
    OverlapOrder();
  }

  /** The dictionary keeps the cuts 5, 6, 7 in that order. */
  lemma OverlapOrder()
    ensures FirstOccurrences([5, 6, 7]) == [5, 6, 7]
  {
    FirstOccurrencesDistinct([5, 6, 7]);
  }

  /** The box loop on those shards, before the exclusion pass. */
  lemma OverlapBuilt()
    ensures BuiltBoxes(OverlapShards(), En)
         == Ok(map[5 := [2, 3, 4, 5, 6], 6 := [3, 4, 5, 6, 7], 7 := [8, 9]])
  {
    OverlapShardsCuts();
    OverlapIndices();
    OverlapReachesBack();
  }

  /** On twenty consecutive terminator positions, each cut is its own slot. */
  lemma OverlapIndices()
    ensures Indices(seq(20, k => k), [5, 6, 7]) == Ok([5, 6, 7])
  {
    var pp: seq<nat> := seq(20, k => k);
    var cuts: seq<int> := [5, 6, 7];
    assert Indices(pp, cuts).Ok? by {
      assert pp[5] == 5 && pp[6] == 6 && pp[7] == 7;
    }
    var v := Indices(pp, cuts).value;
    assert pp[v[0]] == v[0] && pp[v[1]] == v[1] && pp[v[2]] == v[2];
    assert v == [5, 6, 7];
  }




  /** One step of the filtering comprehension. */
  lemma WithoutCons(x: nat, rest: seq<nat>, key: int)
    ensures Without([x] + rest, key) == (if x == key then [] else [x]) + Without(rest, key)
  {
    assert ([x] + rest)[1..] == rest;
  }

  /** Removing the own cut from the first box of `OverlapReachesBack`. */
  lemma WithoutFirstOverlap()
    ensures Without([2, 3, 4, 5, 6], 5) == [2, 3, 4, 6]
  {
    WithoutCons(6, [], 5);
    WithoutCons(5, [6], 5);
    WithoutCons(4, [5, 6], 5);
    WithoutCons(3, [4, 5, 6], 5);
    WithoutCons(2, [3, 4, 5, 6], 5);
    assert [2, 3, 4, 5, 6] == [2] + [3, 4, 5, 6];
  }

  /** Removing the own cut from the second box of `OverlapReachesBack`. */
  lemma WithoutSecondOverlap()
    ensures Without([3, 4, 5, 6, 7], 6) == [3, 4, 5, 7]
  {
    WithoutCons(7, [], 6);
    WithoutCons(6, [7], 6);
    WithoutCons(5, [6, 7], 6);
    WithoutCons(4, [5, 6, 7], 6);
    WithoutCons(3, [4, 5, 6, 7], 6);
  }

  /** The exclusion pass on the boxes of `OverlapReachesBack`. */
  lemma ExcludeOverlap()
    ensures Exclude(map[5 := [2, 3, 4, 5, 6], 6 := [3, 4, 5, 6, 7], 7 := [8, 9]])
         == map[5 := [2, 3, 4, 6], 6 := [3, 4, 5, 7], 7 := [8, 9]]
  {
    var raw: Boxes := map[5 := [2, 3, 4, 5, 6], 6 := [3, 4, 5, 6, 7], 7 := [8, 9]];
    WithoutFirstOverlap();
    WithoutSecondOverlap();
    assert Without([9], 7) == [9];
    assert Without([8, 9], 7) == [8, 9];
    assert Exclude(raw)[5] == [2, 3, 4, 6];
    assert Exclude(raw)[6] == [3, 4, 5, 7];
    assert Exclude(raw)[7] == [8, 9];
  }

  /** On the boxes `check_moving_idx_box` builds for `OverlapShards()`,
      picking slot 3 of the first box and slot 0 of the others gives cuts out
      of order. */
  lemma LittleMoveUnsorted()
    ensures MovingBoxes(OverlapShards(), En).Ok?
    ensures var mv := MovingBoxes(OverlapShards(), En).value;
      && PicksFit(mv, [3, 0, 0])
      && LittleCuts(mv, [3, 0, 0]) == Ok([6, 3, 8])
  {
    OverlapRun();
    UnsortedPicks(Moving(map[5 := [2, 3, 4, 6], 6 := [3, 4, 5, 7], 7 := [8, 9]], [5, 6, 7], [5, 6, 7]));
  }

  /** The picks of `LittleMoveUnsorted` on those boxes. */
  lemma UnsortedPicks(mv: Moving)
    requires mv == Moving(map[5 := [2, 3, 4, 6], 6 := [3, 4, 5, 7], 7 := [8, 9]], [5, 6, 7], [5, 6, 7])
    ensures PicksFit(mv, [3, 0, 0]) && LittleCuts(mv, [3, 0, 0]) == Ok([6, 3, 8])
  {
    assert mv.boxes[mv.order[0]] == [2, 3, 4, 6];
    assert mv.boxes[mv.order[1]] == [3, 4, 5, 7];
    assert mv.boxes[mv.order[2]] == [8, 9];
    assert PicksFit(mv, [3, 0, 0]);
    var r := LittleCuts(mv, [3, 0, 0]);
    assert r.Ok?;
    assert |r.value| == 3;
    assert r.value[0] == 6 && r.value[1] == 3 && r.value[2] == 8;
    assert r.value == [6, 3, 8];
  }

  /** When the last two terminators are both cuts, the little move raises on
      the empty last box, whatever the draws. */
  lemma LittleMoveEmptyBox(needles: seq<Text>, inputTextList: seq<Text>, textList: seq<Text>,
                           lang: Lang, startIdx: nat, picks: seq<nat>, pp: seq<nat>, cuts: seq<int>)
    requires pp == PeriodPositions(Concat(textList), lang) && cuts == CutIndices(textList)
    requires LittleFits(textList, lang, picks)
    requires |inputTextList| == |needles| + 1 && |textList| == |needles| + 1
    requires MovingBoxes(textList, lang).Ok?
    requires |cuts| >= 2 && |pp| >= 2
    requires cuts[|cuts| - 2] == pp[|pp| - 2] && cuts[|cuts| - 1] == pp[|pp| - 1]
    ensures LittleMoving(needles, inputTextList, textList, lang, startIdx, picks) == Err(EmptyBox)
  {
    var mv := MovingBoxes(textList, lang).value;
    FinalBoxEmpty(textList, lang, pp, cuts);
    MovingBoxesKeys(textList, lang);
    LittleCutsEmpty(mv, picks, cuts[|cuts| - 1]);
  }

  /** An empty box listed among the keys makes the picks fail. */
  lemma LittleCutsEmpty(mv: Moving, picks: seq<nat>, key: int)
    requires PicksFit(mv, picks)
    requires key in mv.order && key in mv.boxes && mv.boxes[key] == []
    ensures LittleCuts(mv, picks) == Err(EmptyBox)
  {
    var j :| 0 <= j < |mv.order| && mv.order[j] == key;
    assert |mv.boxes[mv.order[j]]| == 0;
  }

  // ---------------------------------------------------------------------
  // make_large_moving

  /** `make_large_moving(needles, input_text_list, text_list, lang, start_idx)`
      with the draw of `random.sample` as `sample`: fresh sorted cuts among the
      terminators of the joined document. */
  function LargeMoving(needles: seq<Text>, inputTextList: seq<Text>, textList: seq<Text>,
                       lang: Lang, startIdx: nat, sample: seq<nat>): Result<(Text, Text)>
    requires SampleFits(Concat(textList), lang, |needles|, sample)
  {
    if |inputTextList| != |needles| + 1 || |textList| != |needles| + 1 then Err(ShardCountMismatch)
    else if |needles| > |PeriodPositions(Concat(textList), lang)| then Err(SampleTooLarge)
    else
      var cuts := SortedNat(sample);
      Ok((GenMoved(inputTextList, Shift(cuts, startIdx), needles).value,
          GenMoved(textList, cuts, needles).value))
  }

  /** The imperative original: the two assertions, the scan of the joined
      document, the sample sorted in place, the shifted copy and the two moved
      texts. */
  method MakeLargeMoving(needles: seq<Text>, inputTextList: seq<Text>, textList: seq<Text>,
                         lang: Lang, startIdx: nat, sample: seq<nat>)
    returns (r: Result<(Text, Text)>)
    requires SampleFits(Concat(textList), lang, |needles|, sample)
    ensures r == LargeMoving(needles, inputTextList, textList, lang, startIdx, sample)
  {
    if |inputTextList| != |needles| + 1 || |textList| != |needles| + 1 {
      return Err(ShardCountMismatch);
    }
    var textStr := Concat(textList);
    var periodPositions := PeriodPositions(textStr, lang);
    var numStrings := |needles|;
    if numStrings > |periodPositions| {
      return Err(SampleTooLarge);
    }
    var insertPosition := SortedNat(sample);
    assert |insertPosition| == |needles|;
    var insertPositionForInput := Shift(insertPosition, startIdx);
    var newInputText := GenMovedText(inputTextList, insertPositionForInput, needles);
    var newText := GenMovedText(textList, insertPosition, needles);
    return Ok((newInputText.value, newText.value));
  }

  /** The large move fails only on a shard-count mismatch or when there are
      fewer terminators than needles; it has no 80-terminator minimum. */
  lemma LargeMoveErrors(needles: seq<Text>, inputTextList: seq<Text>, textList: seq<Text>,
                        lang: Lang, startIdx: nat, sample: seq<nat>)
    requires SampleFits(Concat(textList), lang, |needles|, sample)
    ensures var r := LargeMoving(needles, inputTextList, textList, lang, startIdx, sample);
      var counts := |inputTextList| == |needles| + 1 && |textList| == |needles| + 1;
      && (r == Err(ShardCountMismatch) <==> !counts)
      && (r == Err(SampleTooLarge) <==> counts && |needles| > |PeriodPositions(Concat(textList), lang)|)
      && (r.Ok? <==> counts && |needles| <= |PeriodPositions(Concat(textList), lang)|)
  {
    if |inputTextList| == |needles| + 1 && |textList| == |needles| + 1
      && |needles| <= |PeriodPositions(Concat(textList), lang)|
    {
      SampleSorted(Concat(textList), lang, |needles|, sample);
    }
  }

  /** The large-move cuts are |needles| distinct terminator positions of the
      joined document in ascending order; the new document is their splice,
      whose shards concatenate back to the document, and it grows by exactly
      the wrapped needles. */
  lemma LargeMoveCuts(needles: seq<Text>, inputTextList: seq<Text>, textList: seq<Text>,
                      lang: Lang, startIdx: nat, sample: seq<nat>)
    requires SampleFits(Concat(textList), lang, |needles|, sample)
    requires LargeMoving(needles, inputTextList, textList, lang, startIdx, sample).Ok?
    ensures var cuts := SortedNat(sample); var d := Concat(textList);
      var r := LargeMoving(needles, inputTextList, textList, lang, startIdx, sample).value;
      && StrictlyIncreasing(cuts) && |cuts| == |needles|
      && (forall k :: 0 <= k < |cuts| ==> cuts[k] in PeriodPositions(d, lang))
      && (forall k :: 0 <= k < |cuts| ==> cuts[k] < |d| && d[cuts[k]] == Terminator(lang))
      && Concat(PyShards(d, cuts)) == d
      && r.1 == Interleave(PyShards(d, cuts), needles)
      && r.1 == JoinLines(Alternate(PyShards(d, cuts), needles))
      && |r.1| == |d| + WrapTotal(needles)
  {
    var d := Concat(textList);
    var cuts := SortedNat(sample);
    SampleSorted(d, lang, |needles|, sample);
    GenMovedIsSplice(textList, cuts, needles);
    InterleaveLength(PyShards(d, cuts), needles);
  }

  /** The two frames of the large move. */
  lemma LargeMoveFrames(needles: seq<Text>, inputTextList: seq<Text>, textList: seq<Text>,
                        lang: Lang, p: Text, s: Text, sample: seq<nat>)
    requires SampleFits(Concat(textList), lang, |needles|, sample)
    requires LargeMoving(needles, inputTextList, textList, lang, |p|, sample).Ok?
    requires Concat(inputTextList) == p + Concat(textList) + s
    ensures var r := LargeMoving(needles, inputTextList, textList, lang, |p|, sample).value;
      r.0 == p + r.1 + s
  {
    var cuts := SortedNat(sample);
    SampleSorted(Concat(textList), lang, |needles|, sample);
    GenMovedFrames(inputTextList, textList, p, s, cuts, needles);
  }

  // ---------------------------------------------------------------------
  // Reordering: `random.shuffle(needles)` until the order differs from the
  // anchor, then `insert_needles_to_text` on both shard lists.

  /** `q` is an order of the anchor needles. */
  predicate IsOrderOf(q: seq<Text>, anchor: seq<Text>)
  {
    multiset(q) == multiset(anchor)
  }

  /** Every draw is an order of the anchor needles. */
  predicate AllPermutations(anchor: seq<Text>, draws: seq<seq<Text>>)
  {
    forall k :: 0 <= k < |draws| ==> IsOrderOf(draws[k], anchor)
  }

  /** All needles are equal, so every order of them is the anchor itself. */
  predicate AllSame(anchor: seq<Text>)
  {
    forall i, j :: 0 <= i < |anchor| && 0 <= j < |anchor| ==> anchor[i] == anchor[j]
  }

  /** The first of the successive shuffles that differs from the anchor; `None`
      when all the given shuffles equal it, so the loop would go on. */
  function FirstDifferent(anchor: seq<Text>, draws: seq<seq<Text>>): Option<seq<Text>>
  {
    if |draws| == 0 then None
    else if draws[0] != anchor then Some(draws[0])
    else FirstDifferent(anchor, draws[1..])
  }

  /** The imperative original: one shuffle, then another while the order is
      still the anchor's; `draws` are the orders the shuffles leave. */
  method ShuffleUntilDifferent(anchor: seq<Text>, draws: seq<seq<Text>>) returns (r: Option<seq<Text>>)
    requires AllPermutations(anchor, draws)
    ensures r == FirstDifferent(anchor, draws)
  {
    if |draws| == 0 {
      return None;
    }
    var k := 0;
    var needles := draws[0];
    while needles == anchor
      invariant 0 <= k < |draws| && needles == draws[k]
      invariant FirstDifferent(anchor, draws) == FirstDifferent(anchor, draws[k..])
      decreases |draws| - k
    {
      if k + 1 == |draws| {
        assert draws[k + 1..] == [];
        return None;
      }
      assert draws[k..][1..] == draws[k + 1..];
      k := k + 1;
      needles := draws[k];
    }
    return Some(needles);
  }

  /** A reordering that stops is an order of the anchor needles that differs from it. */
  lemma {:induction false} ReorderPermutes(anchor: seq<Text>, draws: seq<seq<Text>>)
    requires AllPermutations(anchor, draws)
    requires FirstDifferent(anchor, draws).Some?
    ensures IsOrderOf(FirstDifferent(anchor, draws).value, anchor)
    ensures FirstDifferent(anchor, draws).value != anchor
  {
    if draws[0] == anchor {
      assert AllPermutations(anchor, draws[1..]) by {
        forall k | 0 <= k < |draws[1..]| ensures IsOrderOf(draws[1..][k], anchor) {
          assert draws[1..][k] == draws[k + 1];
        }
      }
      ReorderPermutes(anchor, draws[1..]);
    }
  }

  /** An order of equal needles is the anchor itself. */
  lemma SameOrderIsAnchor(anchor: seq<Text>, q: seq<Text>)
    requires AllSame(anchor) && IsOrderOf(q, anchor)
    ensures q == anchor
  {
    assert |q| == |multiset(q)| == |multiset(anchor)| == |anchor|;
    forall k | 0 <= k < |q| ensures q[k] == anchor[k] {
      assert q[k] in multiset(anchor);
      var i :| 0 <= i < |anchor| && anchor[i] == q[k];
    }
  }

  /** A different order of the anchor exists exactly when two needles differ. */
  lemma DifferentOrderExists(anchor: seq<Text>)
    ensures (exists q :: IsOrderOf(q, anchor) && q != anchor) <==> !AllSame(anchor)
  {
    if AllSame(anchor) {
      forall q | IsOrderOf(q, anchor) ensures q == anchor {
        SameOrderIsAnchor(anchor, q);
      }
    } else {
      var i, j :| 0 <= i < |anchor| && 0 <= j < |anchor| && anchor[i] != anchor[j];
      var q := anchor[i := anchor[j]][j := anchor[i]];
      assert q[i] != anchor[i];
      assert IsOrderOf(q, anchor);
    }
  }

  /** With all needles equal no shuffle differs from the anchor, so the loop
      never stops. */
  lemma {:induction false} AllSameNeverStops(anchor: seq<Text>, draws: seq<seq<Text>>)
    requires AllSame(anchor) && AllPermutations(anchor, draws)
    ensures FirstDifferent(anchor, draws) == None
  {
    if |draws| > 0 {
      SameOrderIsAnchor(anchor, draws[0]);
      assert AllPermutations(anchor, draws[1..]) by {
        forall k | 0 <= k < |draws[1..]| ensures IsOrderOf(draws[1..][k], anchor) {
          assert draws[1..][k] == draws[k + 1];
        }
      }
      AllSameNeverStops(anchor, draws[1..]);
    }
  }

  /** The texts of a reordering: both shard lists re-joined with the new order. */
  function Reordered(needles: seq<Text>, inputTextList: seq<Text>, textList: seq<Text>): Result<(Text, Text)>
  {
    if |inputTextList| != |needles| + 1 || |textList| != |needles| + 1 then Err(ShardCountMismatch)
    else Ok((JoinLines(Alternate(inputTextList, needles)), JoinLines(Alternate(textList, needles))))
  }

  /** The reordering branch of the noise driver. */
  method MakeReordering(anchor: seq<Text>, draws: seq<seq<Text>>, inputTextList: seq<Text>, textList: seq<Text>)
    returns (needles: Option<seq<Text>>, r: Result<(Text, Text)>)
    requires AllPermutations(anchor, draws)
    ensures needles == FirstDifferent(anchor, draws)
    ensures needles.Some? ==> r == Reordered(needles.value, inputTextList, textList)
    ensures needles.None? ==> r == Err(DrawsExhausted)
  {
    needles := ShuffleUntilDifferent(anchor, draws);
    if needles.None? {
      return needles, Err(DrawsExhausted);
    }
    var inputContent := InsertNeedlesToText(inputTextList, needles.value);
    var textWithNeedles := InsertNeedlesToText(textList, needles.value);
    if inputContent.Err? {
      return needles, Err(inputContent.error);
    }
    if textWithNeedles.Err? {
      return needles, Err(textWithNeedles.error);
    }
    r := Ok((inputContent.value, textWithNeedles.value));
  }

  /** The two frames of a reordering: when the prompt shards embed the document
      shards between a prefix and a suffix, the new prompt text is the new
      document text between them, and that is the splice of the shards. */
  lemma ReorderFrames(needles: seq<Text>, textList: seq<Text>, p: Text, s: Text)
    requires |textList| == |needles| + 1
    ensures Reordered(needles, Embed(textList, p, s), textList)
         == Ok((p + Interleave(textList, needles) + s, Interleave(textList, needles)))
  {
    JoinAlternate(textList, needles);
    JoinAlternate(Embed(textList, p, s), needles);
    InterleaveEmbed(textList, needles, p, s);
  }
}
