/**
 * Markdown headings and the heading path: a stack cut to one less than the new heading's level. The
 * path is compared with the true ancestors, found by looking back for the nearest shallower heading.
 */
module Headings {

  /** Levels are 1 to 6. */
  datatype Heading = Heading(level: nat, title: string)

  ghost predicate WellLevelled(hs: seq<Heading>) { forall i | 0 <= i < |hs| :: 1 <= hs[i].level }

  /** The stack after one more heading. */
  function Push(stack: seq<Heading>, h: Heading): seq<Heading>
    requires 1 <= h.level
  {
    (if h.level - 1 <= |stack| then stack[..h.level - 1] else stack) + [h]
  }

  /** The stack after all the headings. */
  ghost function Stack(hs: seq<Heading>): seq<Heading>
    requires WellLevelled(hs)
  {
    if hs == [] then [] else Push(Stack(hs[..|hs| - 1]), hs[|hs| - 1])
  }

  function Titles(hs: seq<Heading>): (r: seq<string>)
    ensures |r| == |hs| && forall i | 0 <= i < |hs| :: r[i] == hs[i].title
  {
    seq(|hs|, i requires 0 <= i < |hs| => hs[i].title)
  }

  // ---------------------------------------------------------------- true ancestors

  /** How many headings remain after looking back from before `end` for one shallower than `level`:
      the nearest is the last of them, and zero means there is none. */
  ghost function LookBack(hs: seq<Heading>, end: nat, level: nat): (r: nat)
    requires end <= |hs|
    ensures r <= end
  {
    if end == 0 || hs[end - 1].level < level then end else LookBack(hs, end - 1, level)
  }

  lemma {:induction false} LookBackFindsNearest(hs: seq<Heading>, end: nat, level: nat)
    requires end <= |hs|
    ensures var r := LookBack(hs, end, level);
      (r > 0 ==> hs[r - 1].level < level) && forall j | r <= j < end :: hs[j].level >= level
  {
    if end > 0 && hs[end - 1].level >= level { LookBackFindsNearest(hs, end - 1, level); }
  }

  /** The chain of nearest shallower headings that ends with the last of the first `end`. */
  ghost function Chain(hs: seq<Heading>, end: nat): seq<Heading>
    requires end <= |hs|
  {
    if end == 0 then [] else Chain(hs, LookBack(hs, end - 1, hs[end - 1].level)) + [hs[end - 1]]
  }

  /** A heading and its ancestors, outermost first. */
  ghost function Ancestors(hs: seq<Heading>, i: nat): seq<Heading>
    requires i < |hs|
  {
    Chain(hs, i + 1)
  }

  // ---------------------------------------------------------------- how the chain grows

  /** Levels strictly increase along a chain, so the level at depth k is more than k. */
  ghost predicate Rising(chain: seq<Heading>) {
    && (forall k | 0 <= k < |chain| :: chain[k].level > k)
    && (forall k, l | 0 <= k < l < |chain| :: chain[k].level < chain[l].level)
  }

  lemma {:induction false} ChainRises(hs: seq<Heading>, end: nat)
    requires WellLevelled(hs) && end <= |hs|
    ensures Rising(Chain(hs, end))
    ensures (end > 0 ==> Chain(hs, end) != [] && Chain(hs, end)[|Chain(hs, end)| - 1] == hs[end - 1])
    decreases end
  {
    if end > 0 {
      var p := LookBack(hs, end - 1, hs[end - 1].level);
      LookBackFindsNearest(hs, end - 1, hs[end - 1].level);
      ChainRises(hs, p);
    }
  }

  /** How many of the first n of a rising chain are shallower than a level. */
  ghost function Kept(chain: seq<Heading>, n: nat, level: nat): (r: nat)
    requires n <= |chain|
    ensures r <= n && (r > 0 ==> chain[r - 1].level < level) && (r < n ==> chain[r].level >= level)
  {
    if n == 0 || chain[n - 1].level < level then n else Kept(chain, n - 1, level)
  }

  /** The part of a rising chain shallower than a level. */
  ghost function Below(chain: seq<Heading>, level: nat): seq<Heading> { chain[..Kept(chain, |chain|, level)] }

  lemma {:induction false} KeptOfPrefix(chain: seq<Heading>, h: Heading, n: nat, level: nat)
    requires n <= |chain|
    ensures Kept(chain + [h], n, level) == Kept(chain, n, level)
  {
    if n > 0 { KeptOfPrefix(chain, h, n - 1, level); }
  }

  lemma BelowDropsLast(chain: seq<Heading>, h: Heading, level: nat)
    requires h.level >= level
    ensures Below(chain + [h], level) == Below(chain, level)
  {
    KeptOfPrefix(chain, h, |chain|, level);
  }

  lemma {:induction false} LookBackFindsChain(hs: seq<Heading>, end: nat, level: nat)
    requires end <= |hs|
    ensures Chain(hs, LookBack(hs, end, level)) == Below(Chain(hs, end), level)
    decreases end
  {
    if end > 0 {
      var h := hs[end - 1];
      var p := LookBack(hs, end - 1, h.level);
      if h.level >= level {
        LookBackFindsChain(hs, p, level);
        LookBackSkips(hs, end - 1, h.level, level);
        BelowDropsLast(Chain(hs, p), h, level);
      }
    }
  }

  /** Looking back for a shallower level first passes everything the deeper search passed. */
  lemma {:induction false} LookBackSkips(hs: seq<Heading>, end: nat, deeper: nat, level: nat)
    requires end <= |hs| && level <= deeper
    ensures LookBack(hs, end, level) == LookBack(hs, LookBack(hs, end, deeper), level)
  {
    if end > 0 && hs[end - 1].level >= deeper { LookBackSkips(hs, end - 1, deeper, level); }
  }

  /** One more heading keeps the ancestors shallower than it. */
  lemma ChainSteps(hs: seq<Heading>, i: nat)
    requires WellLevelled(hs) && i < |hs|
    ensures Chain(hs, i + 1) == Below(Chain(hs, i), hs[i].level) + [hs[i]]
  {
    LookBackFindsChain(hs, i, hs[i].level);
  }

  // ---------------------------------------------------------------- when the path is the ancestors

  /** A heading no deeper than the one before it has an ancestor at every level above its own. */
  ghost predicate NoGapOnReturn(hs: seq<Heading>, i: nat)
    requires i < |hs|
  {
    i > 0 && hs[i].level <= hs[i - 1].level ==> |Ancestors(hs, i)| == hs[i].level
  }

  /** Of a rising chain, what is shallower than a level is fewer than the level, and exactly the part
      whose own levels are lower. */
  lemma BelowCounts(chain: seq<Heading>, level: nat)
    requires Rising(chain) && level >= 1
    ensures |Below(chain, level)| < level
    ensures forall k | 0 <= k < |chain| :: k < |Below(chain, level)| <==> chain[k].level < level
  {
    var r := Kept(chain, |chain|, level);
    forall k | 0 <= k < |chain| ensures k < r <==> chain[k].level < level {
      if k + 1 < r { assert chain[k].level < chain[r - 1].level; }
      if k > r { assert chain[r].level < chain[k].level; }
    }
  }

  /** One step: the stack stays the ancestor chain exactly when the heading leaves no gap. */
  lemma PushIsChain(hs: seq<Heading>, i: nat)
    requires WellLevelled(hs) && i < |hs|
    ensures |Chain(hs, i + 1)| <= |Push(Chain(hs, i), hs[i])|
    ensures Push(Chain(hs, i), hs[i]) == Chain(hs, i + 1) <==> |Push(Chain(hs, i), hs[i])| == |Chain(hs, i + 1)|
    ensures Push(Chain(hs, i), hs[i]) == Chain(hs, i + 1) <==> NoGapOnReturn(hs, i)
  {
    var chain, h := Chain(hs, i), hs[i];
    ChainRises(hs, i);
    ChainSteps(hs, i);
    BelowCounts(chain, h.level);
    var kept := Below(chain, h.level);
    if i > 0 && h.level > hs[i - 1].level {
      assert kept == chain;
      assert |chain| <= h.level - 1;
    }
  }

  ghost predicate PathIsAncestors(hs: seq<Heading>, i: nat)
    requires WellLevelled(hs) && i < |hs|
  {
    Titles(Stack(hs[..i + 1])) == Titles(Ancestors(hs, i))
  }

  ghost predicate PathsAreAncestors(hs: seq<Heading>, n: nat)
    requires WellLevelled(hs) && n <= |hs|
  {
    forall i | 0 <= i < n :: PathIsAncestors(hs, i)
  }

  ghost predicate NoGaps(hs: seq<Heading>, n: nat)
    requires n <= |hs|
  {
    forall i | 0 <= i < n :: NoGapOnReturn(hs, i)
  }

  /** The heading path at every heading up to n is its chain of ancestors exactly when no heading up to n
      leaves a gap; then the stack itself is the chain. */
  lemma {:induction false} PathIsAncestorsIffNoGap(hs: seq<Heading>, n: nat)
    requires WellLevelled(hs) && n <= |hs|
    ensures PathsAreAncestors(hs, n) <==> NoGaps(hs, n)
    ensures NoGaps(hs, n) ==> Stack(hs[..n]) == Chain(hs, n)
  {
    if n > 0 {
      PathIsAncestorsIffNoGap(hs, n - 1);
      if NoGaps(hs, n - 1) { PathAtNext(hs, n - 1); }
    }
  }

  lemma PathAtNext(hs: seq<Heading>, i: nat)
    requires WellLevelled(hs) && i < |hs| && Stack(hs[..i]) == Chain(hs, i)
    ensures PathIsAncestors(hs, i) <==> NoGapOnReturn(hs, i)
    ensures NoGapOnReturn(hs, i) ==> Stack(hs[..i + 1]) == Chain(hs, i + 1)
  {
    PushIsChain(hs, i);
    assert hs[..i + 1][..i] == hs[..i];
    assert Stack(hs[..i + 1]) == Push(Chain(hs, i), hs[i]);
  }

  /** The first heading has level one, and each next one is at most one deeper than the one before. */
  ghost predicate NeverSkips(hs: seq<Heading>) {
    forall i | 0 <= i < |hs| :: 1 <= hs[i].level <= (if i == 0 then 1 else hs[i - 1].level + 1)
  }

  /** Levels that never skip leave no gap anywhere: every ancestor chain has one heading a level. */
  lemma {:induction false} NeverSkippingLeavesNoGap(hs: seq<Heading>, i: nat)
    requires NeverSkips(hs) && i < |hs|
    ensures |Ancestors(hs, i)| == hs[i].level && NoGapOnReturn(hs, i)
  {
    var h := hs[i];
    ChainRises(hs, i);
    ChainSteps(hs, i);
    if i == 0 {
      assert Ancestors(hs, i) == [h];
    } else {
      NeverSkippingLeavesNoGap(hs, i - 1);
      var chain := Chain(hs, i);
      BelowCounts(chain, h.level);
      ContiguousLevels(chain);
      var depth := |Below(chain, h.level)|;
      if h.level >= 2 { assert chain[h.level - 2].level == h.level - 1; }
      assert depth + 1 == h.level;
    }
  }

  /** A rising chain as long as its last level has every level once. */
  lemma {:induction false} ContiguousLevels(chain: seq<Heading>)
    requires Rising(chain) && chain != [] && chain[|chain| - 1].level == |chain|
    ensures forall k | 0 <= k < |chain| :: chain[k].level == k + 1
  {
    if |chain| > 1 { ContiguousLevels(chain[..|chain| - 1]); }
  }

  lemma PathIsAncestorsWhenLevelsNeverSkip(hs: seq<Heading>)
    requires NeverSkips(hs)
    ensures WellLevelled(hs) && PathsAreAncestors(hs, |hs|)
  {
    forall i | 0 <= i < |hs| ensures NoGapOnReturn(hs, i) { NeverSkippingLeavesNoGap(hs, i); }
    PathIsAncestorsIffNoGap(hs, |hs|);
  }

  /** Skipped levels can go wrong: of two headings at level 3 directly below one at level 1, the second
      is recorded as a child of the first. */
  lemma SkippedLevelMisleads(a: string, b: string, c: string)
    ensures
      var hs := [Heading(1, a), Heading(3, b), Heading(3, c)];
      WellLevelled(hs) && Titles(Stack(hs)) == [a, b, c] && Titles(Ancestors(hs, 2)) == [a, c]
  {
    var x, y, z := Heading(1, a), Heading(3, b), Heading(3, c);
    var hs := [x, y, z];
    StackOf([], x);
    StackOf([x], y);
    StackOf([x, y], z);
    assert [] + [x] == [x] && [x] + [y] == [x, y] && [x, y] + [z] == hs;
    assert LookBack(hs, 1, 3) == 1 && LookBack(hs, 2, 3) == LookBack(hs, 1, 3) && LookBack(hs, 0, 1) == 0;
    assert Chain(hs, 1) == Chain(hs, 0) + [x];
    assert Ancestors(hs, 2) == [x, z];
  }

  lemma StackOf(hs: seq<Heading>, h: Heading)
    requires WellLevelled(hs) && h.level >= 1
    ensures WellLevelled(hs + [h]) && Stack(hs + [h]) == Push(Stack(hs), h)
  {
    assert (hs + [h])[..|hs|] == hs;
  }
}
