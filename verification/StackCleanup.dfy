/** Rewriting stack traces: each registered pair replaces a pattern by a shorter text until the
    pattern is gone. */
module StackCleanup {
  import opened Outcomes

  datatype Pair = Pair(find: string, replacement: string) {
    /** Only pairs that shrink the text are ever applied. */
    predicate Shrinks() {
      |find| > |replacement|
    }
  }

  predicate OccursAt(text: string, pattern: string, i: nat) {
    i + |pattern| <= |text| && text[i..i + |pattern|] == pattern
  }

  ghost predicate Occurs(text: string, pattern: string) {
    exists i: nat :: OccursAt(text, pattern, i)
  }

  lemma SliceOfTail(text: string, i: nat, n: nat)
    requires 1 <= i && i + n <= |text|
    ensures text[i..i + n] == text[1..][i - 1..i - 1 + n]
  {}

  /** `std::string::find`: the first occurrence. */
  function Find(text: string, pattern: string): (r: Option<nat>)
    ensures r.None? ==> !Occurs(text, pattern)
    ensures r.Some? ==> OccursAt(text, pattern, r.value) && forall i | 0 <= i < r.value :: !OccursAt(text, pattern, i)
    decreases |text|
  {
    if pattern <= text then Some(0)
    else if text == "" then None
    else
      assert forall i | 1 <= i && i + |pattern| <= |text| ::
          OccursAt(text, pattern, i) <==> OccursAt(text[1..], pattern, i - 1) by {
        forall i | 1 <= i && i + |pattern| <= |text|
          ensures OccursAt(text, pattern, i) <==> OccursAt(text[1..], pattern, i - 1)
        {
          SliceOfTail(text, i, |pattern|);
        }
      }
      assert !OccursAt(text, pattern, 0);
      var rest := Find(text[1..], pattern);
      if rest.None? then None else Some(rest.value + 1)
  }

  function ReplaceAt(text: string, p: Pair, i: nat): string
    requires OccursAt(text, p.find, i)
  {
    text[..i] + p.replacement + text[i + |p.find|..]
  }

  /** Replacing the first occurrence until there is none. */
  function Rewritten(text: string, p: Pair): string
    requires p.Shrinks()
    decreases |text|
  {
    var i := Find(text, p.find);
    if i.None? then text else Rewritten(ReplaceAt(text, p, i.value), p)
  }

  function AllRewritten(pairs: seq<Pair>, text: string): string {
    if pairs == [] then text
    else
      var before := AllRewritten(pairs[..|pairs| - 1], text);
      var p := pairs[|pairs| - 1];
      if p.Shrinks() then Rewritten(before, p) else before
  }

  /** The inner loop terminates because every replacement shortens the text. */
  method ReplaceAll(p: Pair, text: string) returns (result: string)
    requires p.Shrinks()
    ensures result == Rewritten(text, p)
  {
    hide Find, OccursAt, Occurs, Rewritten;
    result := text;
    var it := Find(result, p.find);
    while it.Some?
      invariant it == Find(result, p.find)
      invariant Rewritten(result, p) == Rewritten(text, p)
      decreases |result|
    {
      TurnOfReplaceAll(p, result);
      result := result[..it.value] + p.replacement + result[it.value + |p.find|..];
      it := Find(result, p.find);
    }
    NothingToReplace(p, result);
  }

  lemma OccursInRange(text: string, pattern: string, i: nat)
    requires OccursAt(text, pattern, i)
    ensures i + |pattern| <= |text|
  {}

  lemma TurnOfReplaceAll(p: Pair, text: string)
    requires p.Shrinks() && Find(text, p.find).Some?
    ensures var i := Find(text, p.find).value;
            && i + |p.find| <= |text|
            && Rewritten(text, p) == Rewritten(text[..i] + p.replacement + text[i + |p.find|..], p)
  {
    hide Find, OccursAt, Occurs;
    var i := Find(text, p.find).value;
    OccursInRange(text, p.find, i);
    assert ReplaceAt(text, p, i) == text[..i] + p.replacement + text[i + |p.find|..];
    hide ReplaceAt;
    assert Rewritten(text, p) == Rewritten(ReplaceAt(text, p, i), p);
  }

  lemma NothingToReplace(p: Pair, text: string)
    requires p.Shrinks() && Find(text, p.find).None?
    ensures Rewritten(text, p) == text
  {
    hide Find, OccursAt, Occurs;
  }

  method DoReplacements(pairs: seq<Pair>, text: string) returns (result: string)
    ensures result == AllRewritten(pairs, text)
  {
    result := text;
    for k := 0 to |pairs|
      invariant result == AllRewritten(pairs[..k], text)
    {
      assert pairs[..k + 1][..k] == pairs[..k];
      if |pairs[k].find| > |pairs[k].replacement| {
        result := ReplaceAll(pairs[k], result);
      }
    }
    assert pairs[..|pairs|] == pairs;
  }

  /** The user's cleanups. */
  class Cleanups {
    var pairs: seq<Pair>

    ghost predicate Valid()
      reads this
    {
      forall i | 0 <= i < |pairs| :: pairs[i].Shrinks()
    }

    constructor ()
      ensures pairs == [] && Valid()
    {
      pairs := [];
    }

    /** Only ever stores pairs that will be applied. */
    method AddStackCleanup(find: string, replacement: string) returns (warned: bool)
      requires Valid()
      modifies this
      ensures Valid()
      ensures warned <==> |find| <= |replacement|
      ensures pairs == if warned then old(pairs) else old(pairs) + [Pair(find, replacement)]
    {
      if |find| <= |replacement| {
        return true;
      }
      pairs := pairs + [Pair(find, replacement)];
      return false;
    }
  }

  // ---------- what the rewriting achieves ----------

  /** When a pair is done, its pattern is gone; a text without it was not touched. */
  lemma {:induction false} PatternIsGone(text: string, p: Pair)
    requires p.Shrinks()
    ensures !Occurs(Rewritten(text, p), p.find)
    ensures |Rewritten(text, p)| <= |text|
    ensures Rewritten(text, p) == text <==> !Occurs(text, p.find)
    decreases |text|
  {
    var i := Find(text, p.find);
    if i.Some? {
      PatternIsGone(ReplaceAt(text, p, i.value), p);
    }
  }

  /** A pair is skipped, whatever the text, exactly if its replacement is no shorter than its pattern. */
  lemma SkippedExactlyIfNoShorter(p: Pair)
    ensures (forall text: string :: AllRewritten([p], text) == text) <==> |p.find| <= |p.replacement|
  {
    hide Find, OccursAt, Rewritten;
    assert [p][..0] == [];
    forall text: string
      ensures AllRewritten([p], text) == if |p.find| <= |p.replacement| then text else Rewritten(text, p)
    {
      assert AllRewritten([], text) == text;
    }
    if |p.find| > |p.replacement| {
      PatternIsGone(p.find, p);
      WholeOccurs(p.find);
      assert AllRewritten([p], p.find) != p.find;
    }
  }

  lemma WholeOccurs(q: string)
    ensures OccursAt(q, q, 0) && Occurs(q, q)
  {
    assert OccursAt(q, q, 0);
  }

  /** One replacement of one of the pairs. */
  ghost predicate RewriteStep(pairs: seq<Pair>, a: string, b: string) {
    exists k, i: nat | 0 <= k < |pairs| ::
      pairs[k].Shrinks() && OccursAt(a, pairs[k].find, i) && b == ReplaceAt(a, pairs[k], i)
  }

  /** `steps` leads from its first text to its last by single replacements. */
  ghost predicate Derivation(pairs: seq<Pair>, steps: seq<string>) {
    steps != [] && forall i | 0 <= i < |steps| - 1 :: RewriteStep(pairs, steps[i], steps[i + 1])
  }

  lemma Extend(pairs: seq<Pair>, steps: seq<string>, more: seq<string>)
    requires Derivation(pairs, steps) && Derivation(pairs, more) && steps[|steps| - 1] == more[0]
    ensures Derivation(pairs, steps + more[1..])
    ensures (steps + more[1..])[|steps + more[1..]| - 1] == more[|more| - 1]
  {
    var all := steps + more[1..];
    forall i | 0 <= i < |all| - 1 ensures RewriteStep(pairs, all[i], all[i + 1]) {
      if i < |steps| - 1 {
        assert all[i] == steps[i] && all[i + 1] == steps[i + 1];
      } else {
        assert all[i] == more[i - |steps| + 1] && all[i + 1] == more[i - |steps| + 2];
      }
    }
  }

  lemma {:induction false} RewrittenIsDerived(pairs: seq<Pair>, k: nat, text: string) returns (steps: seq<string>)
    requires k < |pairs| && pairs[k].Shrinks()
    ensures Derivation(pairs, steps) && steps[0] == text && steps[|steps| - 1] == Rewritten(text, pairs[k])
    decreases |text|
  {
    var i := Find(text, pairs[k].find);
    if i.None? {
      steps := [text];
    } else {
      var next := ReplaceAt(text, pairs[k], i.value);
      var rest := RewrittenIsDerived(pairs, k, next);
      assert RewriteStep(pairs, text, next);
      assert Derivation(pairs, [text, next]);
      Extend(pairs, [text, next], rest);
      steps := [text, next] + rest[1..];
    }
  }

  lemma DerivationWithMorePairs(pairs: seq<Pair>, more: seq<Pair>, steps: seq<string>)
    requires Derivation(pairs, steps) && pairs <= more
    ensures Derivation(more, steps)
  {
    forall i | 0 <= i < |steps| - 1 ensures RewriteStep(more, steps[i], steps[i + 1]) {
      assert RewriteStep(pairs, steps[i], steps[i + 1]);
      var k, j: nat :| 0 <= k < |pairs| && pairs[k].Shrinks() && OccursAt(steps[i], pairs[k].find, j)
                       && steps[i + 1] == ReplaceAt(steps[i], pairs[k], j);
      assert more[k] == pairs[k];
    }
  }

  /** The result comes from the text by replacements of the listed pairs, and nothing else; it is no
      longer than the text, and does not contain the pattern of the last pair. */
  lemma {:induction false} RewritingIsSound(pairs: seq<Pair>, text: string) returns (steps: seq<string>)
    ensures Derivation(pairs, steps) && steps[0] == text && steps[|steps| - 1] == AllRewritten(pairs, text)
    ensures |AllRewritten(pairs, text)| <= |text|
    ensures pairs != [] && pairs[|pairs| - 1].Shrinks() ==> !Occurs(AllRewritten(pairs, text), pairs[|pairs| - 1].find)
  {
    hide OccursAt, RewriteStep, Derivation, Rewritten;
    if pairs == [] {
      steps := [text];
      assert Derivation(pairs, steps) by { Alone(pairs, text); }
    } else {
      var init, k := pairs[..|pairs| - 1], |pairs| - 1;
      var before := RewritingIsSound(init, text);
      DerivationWithMorePairs(init, pairs, before);
      steps := before;
      if pairs[k].Shrinks() {
        var last := AllRewritten(init, text);
        PatternIsGone(last, pairs[k]);
        var more := RewrittenIsDerived(pairs, k, last);
        Extend(pairs, before, more);
        steps := before + more[1..];
      }
    }
  }

  lemma Alone(pairs: seq<Pair>, text: string)
    ensures Derivation(pairs, [text])
  {}
}
