/** Which patterns are gone from a rewritten stack trace.  The last pair's is; an earlier one's can be put
    together again by a later replacement, and the conditions under which it cannot are stated here. */
module StackPatterns {
  import opened Outcomes
  import opened StackCleanup

  // ---------- when an earlier pattern stays gone ----------

  /** A part of a text that holds a prefix of `q`, the pattern of `p`, and a suffix of `q`. */
  function Before(q: string, p: Pair, a: nat, b: nat): string
    requires a <= |q| && b <= |q|
  {
    q[..a] + p.find + q[|q| - b..]
  }

  function After(q: string, p: Pair, a: nat, b: nat): string
    requires a <= |q| && b <= |q|
  {
    q[..a] + p.replacement + q[|q| - b..]
  }

  /** `q` does not occur before the replacement and does afterwards, with what stands around the
      replacement inside it. */
  ghost predicate Reveals(q: string, p: Pair, a: nat, b: nat) {
    && a <= |q| && b <= |q|
    && !Occurs(Before(q, p, a, b), q)
    && Find(Before(q, p, a, b), p.find) == Some(a)
    && exists c: nat :: OccursAt(After(q, p, a, b), q, c) && Tight(q, p, a, b, c)
  }

  ghost predicate Tight(q: string, p: Pair, a: nat, b: nat, c: nat) {
    (a > 0 ==> c == 0) && (b > 0 ==> c + |q| == a + |p.replacement| + b)
  }

  /** A condition on the two patterns and the replacement; nothing longer than they are is looked at. */
  ghost predicate Keeps(q: string, p: Pair) {
    forall a: nat, b: nat | a <= |q| && b <= |q| :: !Reveals(q, p, a, b)
  }

  lemma SliceOfSlice(text: string, lo: nat, hi: nat, k: nat, n: nat)
    requires lo <= hi <= |text| && k + n <= hi - lo
    ensures text[lo..hi][k..k + n] == text[lo + k..lo + k + n]
  {
    var part := text[lo..hi][k..k + n];
    assert forall j | 0 <= j < n :: part[j] == text[lo + k + j];
  }

  lemma OccursInPart(text: string, lo: nat, hi: nat, q: string, k: nat)
    requires lo <= hi <= |text| && k + |q| <= hi - lo
    ensures OccursAt(text[lo..hi], q, k) <==> OccursAt(text, q, lo + k)
  {
    SliceOfSlice(text, lo, hi, k, |q|);
  }

  lemma PartLacks(text: string, lo: nat, hi: nat, q: string)
    requires lo <= hi <= |text| && !Occurs(text, q)
    ensures !Occurs(text[lo..hi], q)
  {
    forall k: nat ensures !OccursAt(text[lo..hi], q, k) {
      if k + |q| <= hi - lo {
        OccursInPart(text, lo, hi, q, k);
      }
    }
  }

  lemma FindIsFirst(text: string, q: string, i: nat)
    requires OccursAt(text, q, i) && forall k: nat | k < i :: !OccursAt(text, q, k)
    ensures Find(text, q) == Some(i)
  {
    hide OccursAt, Find;
    assert Occurs(text, q);
    assert Find(text, q).value >= i;
  }

  /** What is found in a text is found in a part around it. */
  lemma FindInPart(text: string, lo: nat, hi: nat, q: string)
    requires lo <= hi <= |text| && Find(text, q).Some?
    requires lo <= Find(text, q).value && Find(text, q).value + |q| <= hi
    ensures Find(text[lo..hi], q) == Some(Find(text, q).value - lo)
  {
    hide Find, OccursAt;
    var i := Find(text, q).value - lo;
    OccursInPart(text, lo, hi, q, i);
    forall k: nat | k < i ensures !OccursAt(text[lo..hi], q, k) {
      OccursInPart(text, lo, hi, q, k);
    }
    FindIsFirst(text[lo..hi], q, i);
  }

  /** An occurrence that a replacement brings about lies across the replacement, and the part of the
      text that it was made of is one of the texts above. */
  lemma WhatATurnReveals(text: string, p: Pair, q: string, e: nat) returns (a: nat, b: nat)
    requires Find(text, p.find).Some? && !Occurs(text, q)
    requires OccursAt(ReplaceAt(text, p, Find(text, p.find).value), q, e)
    ensures Reveals(q, p, a, b)
  {
    hide Find, OccursAt, Occurs;
    var i, n, m := Find(text, p.find).value, |p.find|, |p.replacement|;
    OccursInRange(text, p.find, i);
    var next := ReplaceAt(text, p, i);
    OccursInRange(next, q, e);
    NewOccurrenceTouches(text, p, i, q, e);
    a := if e < i then i - e else 0;
    b := if e + |q| > i + m then e + |q| - i - m else 0;
    var lo, hi, hi' := i - a, i + n + b, i + m + b;
    BeforeIsPart(text, p, i, q, e, a, b);
    AfterIsPart(text, p, i, q, e, a, b);
    PartLacks(text, lo, hi, q);
    FindInPart(text, lo, hi, p.find);
    OccursInPart(next, lo, hi', q, e - lo);
    assert OccursAt(After(q, p, a, b), q, e - lo) && Tight(q, p, a, b, e - lo);
  }

  lemma NewOccurrenceTouches(text: string, p: Pair, i: nat, q: string, e: nat)
    requires OccursAt(text, p.find, i) && !Occurs(text, q) && OccursAt(ReplaceAt(text, p, i), q, e)
    ensures e + |q| > i && (e < i || e < i + |p.replacement|)
  {
    hide OccursAt;
    if e + |q| <= i {
      OccursOnTheLeft(text, p, i, q, e);
    } else if e >= i && e >= i + |p.replacement| {
      OccursOnTheRight(text, p, i, q, e);
    }
  }

  lemma OccursOnTheLeft(text: string, p: Pair, i: nat, q: string, e: nat)
    requires OccursAt(text, p.find, i) && OccursAt(ReplaceAt(text, p, i), q, e) && e + |q| <= i
    ensures OccursAt(text, q, e)
  {
    assert ReplaceAt(text, p, i)[e..e + |q|] == text[e..e + |q|];
  }

  lemma OccursOnTheRight(text: string, p: Pair, i: nat, q: string, e: nat)
    requires OccursAt(text, p.find, i) && OccursAt(ReplaceAt(text, p, i), q, e) && e >= i + |p.replacement|
    ensures OccursAt(text, q, e - |p.replacement| + |p.find|)
  {
    RightOfReplacement(text, p, i, e - i - |p.replacement|, |q|);
  }

  lemma RightOfReplacement(text: string, p: Pair, i: nat, k: nat, n: nat)
    requires OccursAt(text, p.find, i)
    requires i + |p.replacement| + k + n <= |ReplaceAt(text, p, i)|
    ensures i + |p.find| + k + n <= |text|
    ensures var l, r := i + |p.find| + k, i + |p.replacement| + k;
            ReplaceAt(text, p, i)[r..r + n] == text[l..l + n]
  {
    var next, tail := ReplaceAt(text, p, i), text[i + |p.find|..];
    assert next[i + |p.replacement|..] == tail;
    SliceOfSlice(next, i + |p.replacement|, |next|, k, n);
    SliceOfSlice(text, i + |p.find|, |text|, k, n);
  }

  /** What of `q` stands before the replacement stood before the pattern, and the same behind it. */
  lemma LeftNeighbour(text: string, p: Pair, i: nat, q: string, e: nat, a: nat)
    requires OccursAt(text, p.find, i) && OccursAt(ReplaceAt(text, p, i), q, e)
    requires a == (if e < i then i - e else 0) && a <= |q|
    ensures q[..a] == text[i - a..i] == ReplaceAt(text, p, i)[i - a..i]
  {
    var next := ReplaceAt(text, p, i);
    if a > 0 {
      SliceOfSlice(next, e, e + |q|, 0, a);
      SliceOfSlice(next, 0, i, e, a);
      assert next[..i] == text[..i];
      SliceOfSlice(text, 0, i, e, a);
    }
  }

  lemma RightNeighbour(text: string, p: Pair, i: nat, q: string, e: nat, b: nat)
    requires OccursAt(text, p.find, i) && OccursAt(ReplaceAt(text, p, i), q, e)
    requires b == if e + |q| > i + |p.replacement| then e + |q| - i - |p.replacement| else 0
    requires b <= |q|
    ensures i + |p.find| + b <= |text| && i + |p.replacement| + b <= |ReplaceAt(text, p, i)|
    ensures q[|q| - b..] == text[i + |p.find|..i + |p.find| + b]
    ensures q[|q| - b..] == ReplaceAt(text, p, i)[i + |p.replacement|..i + |p.replacement| + b]
  {
    RightOfReplacement(text, p, i, 0, b);
    if b > 0 {
      SliceOfSlice(ReplaceAt(text, p, i), e, e + |q|, |q| - b, b);
    }
  }

  lemma AtReplacement(text: string, p: Pair, i: nat)
    requires OccursAt(text, p.find, i)
    ensures i + |p.find| <= |text| && text[i..i + |p.find|] == p.find
    ensures i + |p.replacement| <= |ReplaceAt(text, p, i)|
    ensures ReplaceAt(text, p, i)[i..i + |p.replacement|] == p.replacement
  {}

  lemma PartAround(text: string, i: nat, word: string, q: string, a: nat, b: nat)
    requires a <= |q| && b <= |q| && a <= i && i + |word| + b <= |text|
    requires q[..a] == text[i - a..i] && word == text[i..i + |word|]
    requires q[|q| - b..] == text[i + |word|..i + |word| + b]
    ensures q[..a] + word + q[|q| - b..] == text[i - a..i + |word| + b]
  {
    ThreeParts(text, i - a, i, i + |word|, i + |word| + b);
  }

  lemma ThreeParts(text: string, i: nat, j: nat, k: nat, l: nat)
    requires i <= j <= k <= l <= |text|
    ensures text[i..l] == text[i..j] + text[j..k] + text[k..l]
  {}

  lemma BeforeIsPart(text: string, p: Pair, i: nat, q: string, e: nat, a: nat, b: nat)
    requires OccursAt(text, p.find, i) && OccursAt(ReplaceAt(text, p, i), q, e)
    requires a == (if e < i then i - e else 0) && a <= |q|
    requires b == (if e + |q| > i + |p.replacement| then e + |q| - i - |p.replacement| else 0) && b <= |q|
    ensures i + |p.find| + b <= |text|
    ensures Before(q, p, a, b) == text[i - a..i + |p.find| + b]
  {
    LeftNeighbour(text, p, i, q, e, a);
    RightNeighbour(text, p, i, q, e, b);
    AtReplacement(text, p, i);
    hide OccursAt, ReplaceAt;
    PartAround(text, i, p.find, q, a, b);
  }

  lemma AfterIsPart(text: string, p: Pair, i: nat, q: string, e: nat, a: nat, b: nat)
    requires OccursAt(text, p.find, i) && OccursAt(ReplaceAt(text, p, i), q, e)
    requires a == (if e < i then i - e else 0) && a <= |q|
    requires b == (if e + |q| > i + |p.replacement| then e + |q| - i - |p.replacement| else 0) && b <= |q|
    ensures i + |p.replacement| + b <= |ReplaceAt(text, p, i)|
    ensures After(q, p, a, b) == ReplaceAt(text, p, i)[i - a..i + |p.replacement| + b]
  {
    LeftNeighbour(text, p, i, q, e, a);
    RightNeighbour(text, p, i, q, e, b);
    AtReplacement(text, p, i);
    hide OccursAt, ReplaceAt;
    PartAround(ReplaceAt(text, p, i), i, p.replacement, q, a, b);
  }

  /** One replacement brings `q` about in `text`. */
  ghost predicate Creates(text: string, p: Pair, q: string) {
    && !Occurs(text, q)
    && Find(text, p.find).Some?
    && Occurs(ReplaceAt(text, p, Find(text, p.find).value), q)
  }

  lemma RevealingPartIsAText(q: string, p: Pair, a: nat, b: nat)
    requires Reveals(q, p, a, b)
    ensures a <= |q| && b <= |q| && Find(Before(q, p, a, b), p.find) == Some(a)
    ensures ReplaceAt(Before(q, p, a, b), p, a) == After(q, p, a, b)
    ensures Occurs(After(q, p, a, b), q) && Creates(Before(q, p, a, b), p, q)
  {
    hide Find, Occurs, OccursAt;
    var c: nat :| OccursAt(After(q, p, a, b), q, c) && Tight(q, p, a, b, c);
    assert Occurs(After(q, p, a, b), q) by { OccursSomewhere(After(q, p, a, b), q, c); }
  }

  lemma OccursSomewhere(text: string, q: string, i: nat)
    requires OccursAt(text, q, i)
    ensures Occurs(text, q)
  {}

  /** For one replacement the condition is exact: none brings `q` about, in whatever text, if and only
      if the pair keeps `q` away. */
  lemma OneTurnKeepsExactly(q: string, p: Pair)
    ensures Keeps(q, p) <==> forall text: string :: !Creates(text, p, q)
  {
    hide Find, OccursAt, Reveals;
    if Keeps(q, p) {
      forall text: string ensures !Creates(text, p, q) {
        if Creates(text, p, q) {
          var e: nat :| OccursAt(ReplaceAt(text, p, Find(text, p.find).value), q, e);
          var a, b := WhatATurnReveals(text, p, q, e);
          WithinBounds(q, p, a, b);
        }
      }
    }
    if forall text: string :: !Creates(text, p, q) {
      forall a: nat, b: nat | a <= |q| && b <= |q| ensures !Reveals(q, p, a, b) {
        if Reveals(q, p, a, b) {
          RevealingPartIsAText(q, p, a, b);
        }
      }
    }
  }

  lemma WithinBounds(q: string, p: Pair, a: nat, b: nat)
    requires Reveals(q, p, a, b)
    ensures a <= |q| && b <= |q| && !Keeps(q, p)
  {
    hide Find, Occurs, OccursAt;
  }

  lemma {:induction false} KeptAway(text: string, p: Pair, q: string)
    requires p.Shrinks() && Keeps(q, p) && !Occurs(text, q)
    ensures !Occurs(Rewritten(text, p), q)
    decreases |text|
  {
    hide OccursAt, Occurs, Keeps;
    if Find(text, p.find).Some? {
      OneTurnKeepsExactly(q, p);
      assert !Creates(text, p, q);
      OccursInRange(text, p.find, Find(text, p.find).value);
      KeptAway(ReplaceAt(text, p, Find(text, p.find).value), p, q);
    }
  }

  lemma OccursThrough(text: string, q: string, inner: string)
    requires Occurs(text, q) && Occurs(q, inner)
    ensures Occurs(text, inner)
  {
    hide Find;
    var i: nat :| OccursAt(text, q, i);
    var j: nat :| OccursAt(q, inner, j);
    SliceOfSlice(text, i, i + |q|, j, |inner|);
    assert OccursAt(text, inner, i + j);
  }

  /** A pattern that contains the pair's own is gone after it. */
  lemma ContainingPatternIsGone(text: string, p: Pair, q: string)
    requires p.Shrinks() && Occurs(q, p.find)
    ensures !Occurs(Rewritten(text, p), q)
  {
    hide Find, Occurs, Rewritten;
    PatternIsGone(text, p);
    if Occurs(Rewritten(text, p), q) {
      OccursThrough(Rewritten(text, p), q, p.find);
    }
  }

  /** Some pair takes `q` away, and every pair after it keeps it away. */
  ghost predicate Gone(pairs: seq<Pair>, q: string) {
    pairs != [] &&
    var init, last := pairs[..|pairs| - 1], pairs[|pairs| - 1];
    if last.Shrinks() then Occurs(q, last.find) || (Gone(init, q) && Keeps(q, last)) else Gone(init, q)
  }

  lemma {:induction false} GonePatternIsAbsent(pairs: seq<Pair>, q: string, text: string)
    requires Gone(pairs, q)
    ensures !Occurs(AllRewritten(pairs, text), q)
  {
    hide Occurs, Keeps, Rewritten;
    var init, last := pairs[..|pairs| - 1], pairs[|pairs| - 1];
    if last.Shrinks() && Occurs(q, last.find) {
      ContainingPatternIsGone(AllRewritten(init, text), last, q);
    } else {
      GonePatternIsAbsent(init, q, text);
      if last.Shrinks() {
        KeptAway(AllRewritten(init, text), last, q);
      }
    }
  }

  lemma {:induction false} NothingOccurs(pairs: seq<Pair>, text: string)
    requires forall i | 0 <= i < |pairs| && pairs[i].Shrinks() :: !Occurs(text, pairs[i].find)
    ensures AllRewritten(pairs, text) == text
  {
    hide Occurs, Rewritten;
    if pairs != [] {
      NothingOccurs(pairs[..|pairs| - 1], text);
      if pairs[|pairs| - 1].Shrinks() {
        PatternIsGone(text, pairs[|pairs| - 1]);
      }
    }
  }

  lemma TurnThenNothing(text: string, p: Pair)
    requires p.Shrinks() && Find(text, p.find).Some?
    requires !Occurs(ReplaceAt(text, p, Find(text, p.find).value), p.find)
    ensures Rewritten(text, p) == ReplaceAt(text, p, Find(text, p.find).value)
  {
    hide Occurs, OccursAt, Find;
    OccursInRange(text, p.find, Find(text, p.find).value);
    PatternIsGone(ReplaceAt(text, p, Find(text, p.find).value), p);
  }

  /** A text that the pairs before `m` have nothing to do with, in which pair `m` replaces its pattern and
      leaves nothing to do for itself and the pairs after it. */
  lemma {:induction false} OneReplacement(pairs: seq<Pair>, m: nat, text: string)
    requires m < |pairs| && pairs[m].Shrinks() && Find(text, pairs[m].find).Some?
    requires forall i | 0 <= i < m && pairs[i].Shrinks() :: !Occurs(text, pairs[i].find)
    requires var after := ReplaceAt(text, pairs[m], Find(text, pairs[m].find).value);
             forall i | m <= i < |pairs| && pairs[i].Shrinks() :: !Occurs(after, pairs[i].find)
    ensures AllRewritten(pairs, text) == ReplaceAt(text, pairs[m], Find(text, pairs[m].find).value)
    decreases |pairs|
  {
    hide Occurs, OccursAt, Rewritten, Find, ReplaceAt;
    var after := ReplaceAt(text, pairs[m], Find(text, pairs[m].find).value);
    var init, last := pairs[..|pairs| - 1], pairs[|pairs| - 1];
    if m == |pairs| - 1 {
      NothingOccurs(init, text);
      TurnThenNothing(text, last);
    } else {
      OneReplacement(init, m, text);
      if last.Shrinks() {
        PatternIsGone(after, last);
      }
    }
  }

  /** A pattern comes back: the text holds none of the earlier patterns, pair `m` brings `q` about, and
      what it leaves is not touched again. */
  lemma PatternReturns(pairs: seq<Pair>, m: nat, q: string, a: nat, b: nat)
    requires m < |pairs| && pairs[m].Shrinks() && Reveals(q, pairs[m], a, b)
    requires forall i | 0 <= i < m && pairs[i].Shrinks() :: !Occurs(Before(q, pairs[m], a, b), pairs[i].find)
    requires forall i | m <= i < |pairs| && pairs[i].Shrinks() :: !Occurs(After(q, pairs[m], a, b), pairs[i].find)
    ensures AllRewritten(pairs, Before(q, pairs[m], a, b)) == After(q, pairs[m], a, b)
    ensures Occurs(AllRewritten(pairs, Before(q, pairs[m], a, b)), q)
  {
    hide Occurs, OccursAt, Reveals, Rewritten, Find, Before, After, AllRewritten, ReplaceAt;
    RevealingPartIsAText(q, pairs[m], a, b);
    OneReplacement(pairs, m, Before(q, pairs[m], a, b));
  }

  // ---------- when the condition is exact for all of a pair's replacements ----------

  /** Some replacement that brings `q` about leaves a text the pair is done with. */
  ghost predicate Settles(q: string, p: Pair) {
    exists a: nat, b: nat | a <= |q| && b <= |q| :: Reveals(q, p, a, b) && !Occurs(After(q, p, a, b), p.find)
  }

  lemma SettledPatternOccurs(q: string, p: Pair) returns (text: string)
    requires p.Shrinks() && Settles(q, p)
    ensures !Occurs(text, q) && Occurs(Rewritten(text, p), q)
  {
    hide Find, Occurs, OccursAt, Reveals, Rewritten, Before, After;
    var a: nat, b: nat :| a <= |q| && b <= |q| && Reveals(q, p, a, b) && !Occurs(After(q, p, a, b), p.find);
    text := Before(q, p, a, b);
    RevealingPartIsAText(q, p, a, b);
    TurnThenNothing(text, p);
  }

  /** Whether a text without `q` can end with it when the pair is done: certainly not if `q` contains the
      pattern or is kept away, certainly if a replacement that brings it about settles.  One of the two
      is the case unless each such replacement leaves the pattern overlapping `q`. */
  lemma DonePairKeepsExactly(q: string, p: Pair)
    requires p.Shrinks() && (Settles(q, p) || Occurs(q, p.find) || Keeps(q, p))
    ensures (forall text: string | !Occurs(text, q) :: !Occurs(Rewritten(text, p), q))
            <==> Occurs(q, p.find) || Keeps(q, p)
  {
    hide Occurs, Keeps, Rewritten, Settles;
    forall text: string | !Occurs(text, q) && (Occurs(q, p.find) || Keeps(q, p))
      ensures !Occurs(Rewritten(text, p), q)
    {
      if Occurs(q, p.find) {
        ContainingPatternIsGone(text, p, q);
      } else {
        KeptAway(text, p, q);
      }
    }
    if Settles(q, p) {
      var text := SettledPatternOccurs(q, p);
    }
  }

  /** With a replacement of at most one character, as in all pairs that delete a word, one of the two is
      always the case. */
  lemma ShortReplacementSettles(q: string, p: Pair)
    requires |p.replacement| <= 1
    ensures Settles(q, p) || Occurs(q, p.find) || Keeps(q, p)
  {
    hide Find, Occurs, OccursAt, Reveals;
    if !Occurs(q, p.find) && !Keeps(q, p) {
      var a: nat, b: nat :| a <= |q| && b <= |q| && Reveals(q, p, a, b);
      ShortRevealIsPattern(q, p, a, b);
      assert Settles(q, p);
    }
  }

  lemma ShortRevealIsPattern(q: string, p: Pair, a: nat, b: nat)
    requires |p.replacement| <= 1 && Reveals(q, p, a, b)
    ensures After(q, p, a, b) == q
  {
    hide Find, Occurs, OccursAt;
    RevealIsProper(q, p, a, b);
    var c: nat :| OccursAt(After(q, p, a, b), q, c) && Tight(q, p, a, b, c);
    OccursInRange(After(q, p, a, b), q, c);
    assert c == 0 && |After(q, p, a, b)| == |q|;
    WholeText(After(q, p, a, b), q);
  }

  lemma WholeText(text: string, q: string)
    requires OccursAt(text, q, 0) && |text| == |q|
    ensures text == q
  {}

  /** Only a part of `q` stands on either side, and `q` is not empty. */
  lemma RevealIsProper(q: string, p: Pair, a: nat, b: nat)
    requires Reveals(q, p, a, b)
    ensures a < |q| && b < |q|
  {
    hide Find, Occurs, OccursAt, Before;
    if a == |q| {
      WholePrefix(q, p, b);
    } else if b == |q| {
      WholeSuffix(q, p, a);
    }
  }

  lemma WholePrefix(q: string, p: Pair, b: nat)
    requires b <= |q|
    ensures Occurs(Before(q, p, |q|, b), q)
  {
    hide OccursAt;
    var rest := p.find + q[|q| - b..];
    OccursAfter("", q, rest);
    assert q[..|q|] == q && "" + q == q;
    assert Before(q, p, |q|, b) == "" + q + rest;
  }

  lemma WholeSuffix(q: string, p: Pair, a: nat)
    requires a <= |q|
    ensures Occurs(Before(q, p, a, |q|), q)
  {
    hide OccursAt;
    OccursAfter(q[..a] + p.find, q, "");
    assert q[0..] == q;
    assert Before(q, p, a, |q|) == q[..a] + p.find + q + "";
  }

  lemma OccursAfter(before: string, q: string, after: string)
    ensures OccursAt(before + q + after, q, |before|)
  {}

  lemma TwoInTurn(first: Pair, second: Pair, text: string)
    requires first.Shrinks() && second.Shrinks()
    ensures AllRewritten([first, second], text) == Rewritten(Rewritten(text, first), second)
  {
    hide Rewritten;
    assert [first, second][..1] == [first] && [first][..0] == [];
    assert AllRewritten([first], text) == Rewritten(text, first);
  }

  /** Two pairs in turn: the first one's pattern never survives both, if and only if it contains the
      second one's or is kept away by it. */
  lemma FirstOfTwoIsGone(first: Pair, second: Pair)
    requires first.Shrinks() && second.Shrinks()
    requires Settles(first.find, second) || Occurs(first.find, second.find) || Keeps(first.find, second)
    ensures (forall text: string :: !Occurs(AllRewritten([first, second], text), first.find))
            <==> Occurs(first.find, second.find) || Keeps(first.find, second)
  {
    hide Occurs, Keeps, Rewritten, Settles;
    var q, pairs := first.find, [first, second];
    if Occurs(q, second.find) || Keeps(q, second) {
      forall text: string ensures !Occurs(AllRewritten(pairs, text), q) {
        PatternIsGone(text, first);
        TwoInTurn(first, second, text);
        DonePairKeepsExactly(q, second);
      }
    } else {
      var text := SettledPatternOccurs(q, second);
      PatternIsGone(text, first);
      TwoInTurn(first, second, text);
      assert Occurs(AllRewritten(pairs, text), q);
    }
  }

  /** Otherwise the text around decides: here the pair's own pattern overlaps what the first replacement
      brings about, and whether that survives depends on one more character of the text. */
  lemma ContextDecides()
    ensures var q, p := "aabb", Pair("aaab", "aa");
            && !Occurs("aaababb", q) && Rewritten("aaababb", p) == "aab"
            && !Occurs("aaababbb", q) && Rewritten("aaababbb", p) == q
  {
    hide Find, Occurs, OccursAt, Rewritten;
    var p := Pair("aaab", "aa");
    TurnAtStart(p, "abb");
    TurnAtStart(p, "b");
    TurnAtStart(p, "abbb");
    TurnAtStart(p, "bb");
    assert p.find + "abb" == "aaababb" && p.find + "abbb" == "aaababbb";
    assert p.replacement + "abb" == p.find + "b" && p.replacement + "abbb" == p.find + "bb";
    assert p.replacement + "b" == "aab" && p.replacement + "bb" == "aabb";
    LacksFour("aaababb", "aabb");
    LacksFour("aaababbb", "aabb");
    LacksFour("aab", p.find);
    LacksFour("aabb", p.find);
    NothingToReplace(p, "aab");
    NothingToReplace(p, "aabb");
  }

  lemma TurnAtStart(p: Pair, rest: string)
    requires p.Shrinks()
    ensures Rewritten(p.find + rest, p) == Rewritten(p.replacement + rest, p)
  {
    assert Find(p.find + rest, p.find) == Some(0);
    assert ReplaceAt(p.find + rest, p, 0) == p.replacement + rest;
  }

  lemma OccursMeans(text: string, q: string, i: nat)
    ensures OccursAt(text, q, i) <==> i + |q| <= |text| && forall j | 0 <= j < |q| :: text[i + j] == q[j]
  {
    if i + |q| <= |text| {
      var part := text[i..i + |q|];
      assert forall j | 0 <= j < |q| :: part[j] == text[i + j];
    }
  }

  lemma LacksFour(text: string, q: string)
    requires |q| == 4
    requires forall i | 0 <= i < |text| - 3 ::
               text[i] != q[0] || text[i + 1] != q[1] || text[i + 2] != q[2] || text[i + 3] != q[3]
    ensures !Occurs(text, q) && Find(text, q).None?
  {
    hide Find;
    forall i: nat ensures !OccursAt(text, q, i) {
      assert i + 4 <= |text| ==>
               text[i] != q[0] || text[i + 1] != q[1] || text[i + 2] != q[2] || text[i + 3] != q[3];
      OccursMeans(text, q, i);
    }
  }

  // ---------- a condition that is quick to see ----------

  /** Laid over each other at some shift, `q` and `r` agree wherever both have a character. */
  ghost predicate Clash(q: string, r: string) {
    exists d: int | -|q| < d < |r| :: Overlap(q, r, d)
  }

  predicate Overlap(q: string, r: string, d: int) {
    forall j | 0 <= j < |q| && 0 <= d + j < |r| :: q[j] == r[d + j]
  }

  lemma RevealIsClash(q: string, p: Pair, a: nat, b: nat)
    requires Reveals(q, p, a, b) && p.replacement != ""
    ensures Clash(q, p.replacement)
  {
    RevealIsProper(q, p, a, b);
    hide Find, Occurs, OccursAt, Overlap;
    var r, text := p.replacement, After(q, p, a, b);
    var c: nat :| OccursAt(text, q, c) && Tight(q, p, a, b, c);
    OccursInRange(text, q, c);
    OccursAfter(q[..a], r, q[|q| - b..]);
    BothOccur(text, q, c, r, a);
    assert -|q| < c - a < |r|;
  }

  lemma BothOccur(text: string, q: string, c: nat, r: string, a: nat)
    requires OccursAt(text, q, c) && OccursAt(text, r, a)
    ensures Overlap(q, r, c - a)
  {
    assert forall j | 0 <= j < |q| :: q[j] == text[c + j];
    assert forall j | 0 <= j < |r| :: r[j] == text[a + j];
  }

  /** A pair's pattern is gone from every result if each later pair has a replacement, and none that
      clashes with the pattern. */
  lemma {:induction false} WithoutClashGone(pairs: seq<Pair>, k: nat, text: string)
    requires k < |pairs| && pairs[k].Shrinks()
    requires forall m | k < m < |pairs| && pairs[m].Shrinks() ::
               pairs[m].replacement != "" && !Clash(pairs[k].find, pairs[m].replacement)
    ensures Gone(pairs, pairs[k].find)
    ensures !Occurs(AllRewritten(pairs, text), pairs[k].find)
    decreases |pairs|
  {
    hide Occurs, Clash, Reveals, Rewritten, AllRewritten;
    var q, init, last := pairs[k].find, pairs[..|pairs| - 1], pairs[|pairs| - 1];
    if k == |pairs| - 1 {
      WholeOccurs(q);
    } else {
      WithoutClashGone(init, k, text);
      if last.Shrinks() {
        forall a: nat, b: nat | a <= |q| && b <= |q| ensures !Reveals(q, last, a, b) {
          if Reveals(q, last, a, b) {
            RevealIsClash(q, last, a, b);
          }
        }
      }
    }
    GonePatternIsAbsent(pairs, q, text);
  }

  // ---------- the built-in pairs ----------

  /** The pairs that are always applied, without the spellings of the standard string types. */
  const REPLACE_LIST := [Pair("std::__1::", "std::"), Pair("__thiscall ", ""), Pair("__cdecl ", "")]

  predicate Once(s: string, i: nat)
    requires i < |s|
  {
    forall k | 0 <= k < |s| && s[k] == s[i] :: k == i
  }

  lemma LacksCharacter(text: string, q: string, j: nat)
    requires j < |q| && q[j] !in text
    ensures !Occurs(text, q)
  {
    forall k: nat ensures !OccursAt(text, q, k) {
      assert k + j < |text| ==> text[k + j] != q[j];
      OccursMeans(text, q, k);
    }
  }

  /** A word in the middle of a text is found there, if it has a character that the rest lacks. */
  lemma WordIsFound(left: string, word: string, right: string, j: nat)
    requires j < |word| && Once(word, j) && word[j] !in left && word[j] !in right
    ensures Find(left + word + right, word) == Some(|left|)
  {
    hide Find, OccursAt;
    var text := left + word + right;
    OccursAfter(left, word, right);
    forall k: nat | k < |left| ensures !OccursAt(text, word, k) {
      assert text[k + j] == if k + j < |left| then left[k + j] else word[k + j - |left|];
      OccursMeans(text, word, k);
    }
    FindIsFirst(text, word, |left|);
  }

  /** And what it splits does not occur. */
  lemma SplitDoesNotOccur(left: string, word: string, right: string, x: nat)
    requires x < |left| && Once(left + right, x) && left[x] !in word
    requires word != "" && right != "" && word[0] != right[0]
    ensures !Occurs(left + word + right, left + right)
  {
    hide OccursAt;
    var text, q := left + word + right, left + right;
    assert text[|left|] == word[0] && q[|left|] == right[0] && q[x] == left[x];
    forall k: nat ensures !OccursAt(text, q, k) {
      OccursMeans(text, q, k);
      if 0 < k && k + |q| <= |text| {
        SplitCharacter(left, word, right, x, k);
      }
    }
  }

  lemma SplitCharacter(left: string, word: string, right: string, x: nat, k: nat)
    requires x < |left| && Once(left + right, x) && left[x] !in word
    requires 0 < k && k + x < |left + word + right|
    ensures (left + word + right)[k + x] != (left + right)[x]
  {
    var text, q := left + word + right, left + right;
    if k + x < |left| {
      assert text[k + x] == q[k + x];
    } else if k + x < |left| + |word| {
      assert text[k + x] == word[k + x - |left|];
    } else {
      assert text[k + x] == q[k + x - |word|];
    }
  }

  lemma Halves(left: string, right: string)
    ensures var q := left + right; q[..|left|] == left && q[|q| - |right|..] == right && left + "" + right == q
  {}

  /** Deleting a word between the two halves of `q` brings it about. */
  lemma DeletionReveals(left: string, p: Pair, right: string)
    requires p.replacement == "" && left != "" && right != ""
    requires !Occurs(left + p.find + right, left + right) && Find(left + p.find + right, p.find) == Some(|left|)
    ensures var q := left + right;
            && Reveals(q, p, |left|, |right|)
            && Before(q, p, |left|, |right|) == left + p.find + right && After(q, p, |left|, |right|) == q
  {
    hide Find, Occurs, OccursAt;
    var q := left + right;
    Halves(left, right);
    assert Before(q, p, |left|, |right|) == left + p.find + right && After(q, p, |left|, |right|) == q;
    WholeOccurs(q);
    assert OccursAt(After(q, p, |left|, |right|), q, 0) && Tight(q, p, |left|, |right|, 0);
  }

  /** The last pair puts `q` together, and the others have nothing to do. */
  lemma LastDeletionReturns(left: string, right: string, x: nat)
    requires x < |left| && Once(left + right, x) && left[x] !in REPLACE_LIST[2].find
    requires right != "" && right[0] != '_' && 'e' !in left && 'e' !in right
    requires forall k | 0 <= k < 2 :: !Occurs(left + REPLACE_LIST[2].find + right, REPLACE_LIST[k].find)
    ensures AllRewritten(REPLACE_LIST, left + REPLACE_LIST[2].find + right) == left + right
  {
    hide Occurs, OccursAt, Find, AllRewritten, Reveals, Before, After;
    var q, last := left + right, REPLACE_LIST[2];
    WordIsFound(left, last.find, right, 4);
    SplitDoesNotOccur(left, last.find, right, x);
    DeletionReveals(left, last, right);
    LacksCharacter(q, last.find, 4);
    PatternReturns(REPLACE_LIST, 2, q, |left|, |right|);
  }

  lemma NamespaceReturns()
    ensures AllRewritten(REPLACE_LIST, "std::__1" + "__cdecl " + "::") == "std::__1" + "::"
  {
    hide Find, Occurs, AllRewritten;
    var left, word, right := "std::__1", "__cdecl ", "::";
    assert left + right == REPLACE_LIST[0].find;
    SplitDoesNotOccur(left, word, right, 7);
    LacksCharacter(left + word + right, REPLACE_LIST[1].find, 3);
    LastDeletionReturns(left, right, 7);
  }

  lemma ThiscallReturns()
    ensures AllRewritten(REPLACE_LIST, "__this" + "__cdecl " + "call ") == "__this" + "call "
  {
    hide Find, Occurs, AllRewritten;
    var left, word, right := "__this", "__cdecl ", "call ";
    assert left + right == REPLACE_LIST[1].find;
    SplitDoesNotOccur(left, word, right, 3);
    LacksCharacter(left + word + right, REPLACE_LIST[0].find, 3);
    LastDeletionReturns(left, right, 3);
  }

  /** Of the built-in patterns only the last is sure to be gone: deleting a calling convention can put
      an earlier pattern together. */
  lemma EarlierPatternCanReturn()
    ensures AllRewritten(REPLACE_LIST, "std::__1__cdecl ::") == "std::__1::"
    ensures AllRewritten(REPLACE_LIST, "__this__cdecl call ") == "__thiscall "
  {
    hide AllRewritten;
    NamespaceReturns();
    ThiscallReturns();
    assert "std::__1" + "__cdecl " + "::" == "std::__1__cdecl ::" && "std::__1" + "::" == "std::__1::";
    assert "__this" + "__cdecl " + "call " == "__this__cdecl call " && "__this" + "call " == "__thiscall ";
  }

  lemma BuiltInPatternIsGone(k: nat)
    requires k < |REPLACE_LIST|
    ensures (forall text: string :: !Occurs(AllRewritten(REPLACE_LIST, text), REPLACE_LIST[k].find))
            <==> k == |REPLACE_LIST| - 1
  {
    hide Occurs, OccursAt, Find, AllRewritten;
    EarlierPatternCanReturn();
    WholeOccurs(REPLACE_LIST[k].find);
    if k == |REPLACE_LIST| - 1 {
      forall text: string ensures !Occurs(AllRewritten(REPLACE_LIST, text), REPLACE_LIST[k].find) {
        WithoutClashGone(REPLACE_LIST, k, text);
      }
    }
  }

  // ---------- what the built-in pairs do ----------

  /** Two underscores in a row, and no others. */
  predicate Underscored(find: string, o: nat) {
    && o + 2 < |find| && find[o] == '_' && find[o + 1] == '_'
    && forall i | 0 <= i < |find| && find[i] == '_' :: i == o || i == o + 1
  }

  /** Around one such word without other underscores, another one can only stand where that stands. */
  lemma UnderscoresMatch(left: string, find: string, right: string, o: nat, q: string, o': nat, k: nat)
    requires Underscored(find, o) && Underscored(q, o') && '_' !in left && '_' !in right
    requires OccursAt(left + find + right, q, k)
    ensures k + o' == |left| + o && q[o' + 2] == find[o + 2]
  {
    var text := left + find + right;
    OccursMeans(text, q, k);
    assert text[k + o'] == '_' && text[k + o' + 1] == '_' && text[k + o' + 2] == q[o' + 2];
    UnderscorePlace(left, find, right, o, k + o');
    UnderscorePlace(left, find, right, o, k + o' + 1);
    assert text[|left| + o + 2] == find[o + 2];
  }

  lemma UnderscorePlace(left: string, find: string, right: string, o: nat, k: nat)
    requires Underscored(find, o) && '_' !in left && '_' !in right
    requires k < |left + find + right| && (left + find + right)[k] == '_'
    ensures k == |left| + o || k == |left| + o + 1
  {
    CharacterOfThree(left, find, right, k);
  }

  lemma CharacterOfThree(left: string, word: string, right: string, k: nat)
    requires k < |left + word + right|
    ensures (left + word + right)[k]
         == if k < |left| then left[k]
            else if k < |left| + |word| then word[k - |left|]
            else right[k - |left| - |word|]
  {}

  lemma WordStandsAlone(left: string, find: string, right: string, o: nat)
    requires Underscored(find, o) && '_' !in left && '_' !in right
    ensures Find(left + find + right, find) == Some(|left|)
  {
    hide Find, OccursAt, Underscored;
    var text := left + find + right;
    OccursAfter(left, find, right);
    forall k: nat | k < |left| ensures !OccursAt(text, find, k) {
      if OccursAt(text, find, k) {
        UnderscoresMatch(left, find, right, o, find, o, k);
      }
    }
    FindIsFirst(text, find, |left|);
  }

  lemma OtherWordIsAbsent(left: string, find: string, right: string, o: nat, q: string, o': nat)
    requires Underscored(find, o) && Underscored(q, o') && '_' !in left && '_' !in right
    requires q[o' + 2] != find[o + 2]
    ensures !Occurs(left + find + right, q)
  {
    hide OccursAt;
    forall k: nat ensures !OccursAt(left + find + right, q, k) {
      if OccursAt(left + find + right, q, k) {
        UnderscoresMatch(left, find, right, o, q, o', k);
      }
    }
  }

  /** The patterns have their underscores at `places`, tell each other apart behind them, and have no
      underscores in their replacements. */
  predicate Distinguished(pairs: seq<Pair>, places: seq<nat>) {
    && |places| == |pairs|
    && (forall i | 0 <= i < |pairs| ::
          Underscored(pairs[i].find, places[i]) && pairs[i].Shrinks() && '_' !in pairs[i].replacement)
    && (forall i, j | 0 <= i < j < |pairs| :: pairs[i].find[places[i] + 2] != pairs[j].find[places[j] + 2])
  }

  /** Such pairs replace a pattern that stands alone, and nothing else. */
  lemma LoneWordIsReplaced(pairs: seq<Pair>, places: seq<nat>, m: nat, left: string, right: string)
    requires Distinguished(pairs, places) && m < |pairs| && '_' !in left && '_' !in right
    ensures AllRewritten(pairs, left + pairs[m].find + right) == left + pairs[m].replacement + right
  {
    hide Find, Occurs, OccursAt, AllRewritten, Underscored, ReplaceAt;
    var p, text := pairs[m], left + pairs[m].find + right;
    WordStandsAlone(left, p.find, right, places[m]);
    WordIsReplaced(left, p, right);
    forall i | 0 <= i < m ensures !Occurs(text, pairs[i].find) {
      ThirdCharacter(pairs, places, i, m);
      OtherWordIsAbsent(left, p.find, right, places[m], pairs[i].find, places[i]);
    }
    forall i | 0 <= i < |pairs| ensures !Occurs(left + p.replacement + right, pairs[i].find) {
      UnderscoredIsAbsent(left + p.replacement + right, pairs[i].find, places[i]);
    }
    OneReplacement(pairs, m, text);
  }

  lemma ThirdCharacter(pairs: seq<Pair>, places: seq<nat>, i: nat, m: nat)
    requires Distinguished(pairs, places) && i < m < |pairs|
    ensures places[i] + 2 < |pairs[i].find| && places[m] + 2 < |pairs[m].find|
    ensures pairs[i].find[places[i] + 2] != pairs[m].find[places[m] + 2]
  {}

  lemma UnderscoredIsAbsent(text: string, find: string, o: nat)
    requires Underscored(find, o) && '_' !in text
    ensures !Occurs(text, find)
  {
    LacksCharacter(text, find, o);
  }

  lemma WordIsReplaced(left: string, p: Pair, right: string)
    requires OccursAt(left + p.find + right, p.find, |left|)
    ensures ReplaceAt(left + p.find + right, p, |left|) == left + p.replacement + right
  {
    var text := left + p.find + right;
    assert text[..|left|] == left && text[|left| + |p.find|..] == right;
  }

  lemma BuiltInUnderscores()
    ensures Underscored("std::__1::", 5) && "std::__1::"[7] == '1'
    ensures Underscored("__thiscall ", 0) && "__thiscall "[2] == 't'
    ensures Underscored("__cdecl ", 0) && "__cdecl "[2] == 'c'
  {}

  lemma BuiltInsAreDistinguished()
    ensures Distinguished(REPLACE_LIST, [5, 0, 0])
  {
    hide Underscored;
    BuiltInUnderscores();
    assert '_' !in "std::" && '_' !in "";
  }

  lemma BuiltInWord(m: nat, left: string, right: string)
    requires m < |REPLACE_LIST| && '_' !in left && '_' !in right
    ensures AllRewritten(REPLACE_LIST, left + REPLACE_LIST[m].find + right)
         == left + REPLACE_LIST[m].replacement + right
  {
    hide AllRewritten, Distinguished;
    BuiltInsAreDistinguished();
    LoneWordIsReplaced(REPLACE_LIST, [5, 0, 0], m, left, right);
  }

  /** The inline namespace of a standard library is dropped, and so is a calling convention, with nothing
      else changed. */
  lemma BuiltInResults(left: string, right: string)
    requires '_' !in left && '_' !in right
    ensures AllRewritten(REPLACE_LIST, left + "std::__1::" + right) == left + "std::" + right
    ensures AllRewritten(REPLACE_LIST, left + "__thiscall " + right) == left + "" + right
    ensures AllRewritten(REPLACE_LIST, left + "__cdecl " + right) == left + "" + right
  {
    hide AllRewritten;
    BuiltInWord(0, left, right);
    BuiltInWord(1, left, right);
    BuiltInWord(2, left, right);
  }
}
