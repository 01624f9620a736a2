/**
 * RandomForest.java: a forest is a list of decision trees grown from bootstrap
 * samples; it decides a sample by a plurality vote of its trees and is tested
 * by counting the samples it decides correctly.
 *
 * Three things the source takes from outside are parameters here:
 *  - grow: DecisionTree.growDecisionTree, a tree builder that is not part of
 *    this model;
 *  - draws: the indices ListUtils.random picks, draws[i] being the bootstrap
 *    picks for tree i;
 *  - order: the iteration order of the vote counter's key set. A HashMap of
 *    strings iterates in an order fixed by the keys it was given and the order
 *    they arrived in, so order maps the sequence of votes cast to the key
 *    order the counter's mode scan sees.
 */
module Forests {
  import opened Wrappers
  import opened Samples
  import opened DecisionTrees
  import opened Counters
  import ListUtils

  /** The signature of the tree builder: attribute domains, training samples, m. */
  type Grower = (map<string, seq<string>>, seq<Sample>, int) -> DecisionTree

  /** Every bootstrap has n picks, each an index into samples. */
  ghost predicate ValidDraws(samples: seq<Sample>, size: nat, n: nat, draws: seq<seq<nat>>) {
    && |draws| == size
    && forall i :: 0 <= i < size ==>
         |draws[i]| == n && forall j :: 0 <= j < n ==> draws[i][j] < |samples|
  }

  /** The trees of a forest grown with the given picks: tree i is grown from bootstrap i. */
  function Grown(attrs: map<string, seq<string>>, samples: seq<Sample>, m: int, grow: Grower,
                 draws: seq<seq<nat>>): (trees: seq<DecisionTree>)
    requires forall i, j :: 0 <= i < |draws| && 0 <= j < |draws[i]| ==> draws[i][j] < |samples|
    ensures |trees| == |draws|
  {
    seq(|draws|, i requires 0 <= i < |draws| =>
      grow(attrs, ListUtils.Bootstrap(samples, draws[i]), m))
  }

  /** t is what the builder makes of some list of n samples taken from samples. */
  ghost predicate GrownFromBootstrap(t: DecisionTree, attrs: map<string, seq<string>>, samples: seq<Sample>,
                                     n: nat, m: int, grow: Grower) {
    exists boot: seq<Sample> ::
      && |boot| == n
      && (forall x :: x in boot ==> x in samples)
      && t == grow(attrs, boot, m)
  }

  /** A forest grown with size bootstraps of n picks has size trees, each grown from n samples. */
  lemma GrownFromBootstraps(attrs: map<string, seq<string>>, samples: seq<Sample>, size: nat, n: nat,
                            m: int, grow: Grower, draws: seq<seq<nat>>)
    requires ValidDraws(samples, size, n, draws)
    ensures |Grown(attrs, samples, m, grow, draws)| == size
    ensures forall i :: 0 <= i < size ==>
              GrownFromBootstrap(Grown(attrs, samples, m, grow, draws)[i], attrs, samples, n, m, grow)
  {
    var trees := Grown(attrs, samples, m, grow, draws);
    forall i | 0 <= i < size
      ensures GrownFromBootstrap(trees[i], attrs, samples, n, m, grow)
    {
      var boot := ListUtils.Bootstrap(samples, draws[i]);
      assert |boot| == n && forall x :: x in boot ==> x in samples;
      assert trees[i] == grow(attrs, boot, m);
    }
  }

  /**
   * The loop of growRandomForest: one bootstrap list and one tree per
   * iteration, appended in order.
   */
  method GrowTrees(attrs: map<string, seq<string>>, samples: seq<Sample>, size: nat, n: nat, m: int,
                   grow: Grower, draws: seq<seq<nat>>) returns (trees: seq<DecisionTree>)
    requires ValidDraws(samples, size, n, draws)
    ensures trees == Grown(attrs, samples, m, grow, draws)
    ensures |trees| == size
  {
    trees := [];
    for i := 0 to size
      invariant trees == Grown(attrs, samples, m, grow, draws[..i])
    {
      var sampleChoices := ListUtils.Choices(samples, n, draws[i]);
      trees := trees + [grow(attrs, sampleChoices, m)];
    }
    assert draws[..size] == draws;
  }

  // ---------------------------------------------------------------- voting

  /** Every tree reaches a leaf on choices, so no tree dereferences null. */
  ghost predicate Decides(trees: seq<DecisionTree>, choices: map<string, string>) {
    forall i :: 0 <= i < |trees| ==> Decide(trees[i], choices).Some?
  }

  /** The votes the trees cast on choices, in tree order. */
  function Ballots(trees: seq<DecisionTree>, choices: map<string, string>): (b: seq<string>)
    requires forall i :: 0 <= i < |trees| ==> Decide(trees[i], choices).Some?
    ensures |b| == |trees|
  {
    seq(|trees|, i requires 0 <= i < |trees| => Decide(trees[i], choices).value)
  }

  /** The vote counter after every tree has voted. */
  function Tally(trees: seq<DecisionTree>, choices: map<string, string>): map<string, int>
    requires forall i :: 0 <= i < |trees| ==> Decide(trees[i], choices).Some?
  {
    Added(map[], Ballots(trees, choices))
  }

  /** order yields, for every history of votes, each value voted exactly once. */
  ghost predicate IsKeyOrder(order: seq<string> -> seq<string>) {
    forall h :: Enumerates(order(h), set x | x in h)
  }

  /** The forest's decision: the counter's mode, scanned in the counter's key order. */
  function Vote(trees: seq<DecisionTree>, choices: map<string, string>,
                order: seq<string> -> seq<string>): Option<string>
    requires forall i :: 0 <= i < |trees| ==> Decide(trees[i], choices).Some?
  {
    var b := Ballots(trees, choices);
    ModeScan(Added(map[], b), order(b))
  }

  /** The number of trees that decide v on choices. */
  function VotesFor(trees: seq<DecisionTree>, choices: map<string, string>, v: string): (c: nat)
    ensures c <= |trees|
  {
    if trees == [] then 0
    else
      var rest := VotesFor(trees[1..], choices, v);
      if Decide(trees[0], choices) == Some(v) then rest + 1 else rest
  }

  /** Each value's entry in the vote counter is the number of trees that decided it. */
  lemma {:induction false} TallyCountsVotes(trees: seq<DecisionTree>, choices: map<string, string>, v: string)
    requires Decides(trees, choices)
    ensures Lookup(Tally(trees, choices), v) == VotesFor(trees, choices, v)
    ensures v in Tally(trees, choices) <==> VotesFor(trees, choices, v) > 0
  {
    var b := Ballots(trees, choices);
    AddedCounts(map[], b);
    BallotsCountVotes(trees, choices, v);
  }

  lemma {:induction false} BallotsCountVotes(trees: seq<DecisionTree>, choices: map<string, string>, v: string)
    requires Decides(trees, choices)
    ensures multiset(Ballots(trees, choices))[v] == VotesFor(trees, choices, v)
  {
    if trees != [] {
      var rest := trees[1..];
      assert Decides(rest, choices) by {
        forall i | 0 <= i < |rest| ensures Decide(rest[i], choices).Some? {
          assert rest[i] == trees[i + 1];
        }
      }
      assert Ballots(trees, choices) == [Decide(trees[0], choices).value] + Ballots(rest, choices);
      BallotsCountVotes(rest, choices, v);
    }
  }

  /**
   * decide is a plurality vote: null exactly for a forest with no trees;
   * otherwise a value some tree decided, with at least as many votes as any
   * other, and every value before it in the counter's key order has strictly
   * fewer votes.
   */
  lemma VoteIsPlurality(trees: seq<DecisionTree>, choices: map<string, string>,
                        order: seq<string> -> seq<string>)
    requires Decides(trees, choices) && IsKeyOrder(order)
    ensures Vote(trees, choices, order).None? <==> trees == []
    ensures Vote(trees, choices, order).Some? ==>
              var v := Vote(trees, choices, order).value;
              var keys := order(Ballots(trees, choices));
              && (exists i :: 0 <= i < |trees| && Decide(trees[i], choices) == Some(v))
              && (forall w :: VotesFor(trees, choices, w) <= VotesFor(trees, choices, v))
              && (forall i, j :: 0 <= i < j < |keys| && keys[j] == v ==>
                    VotesFor(trees, choices, keys[i]) < VotesFor(trees, choices, v))
  {
    var b := Ballots(trees, choices);
    var counts := Added(map[], b);
    var keys := order(b);
    AddedFromEmpty(b);
    assert Enumerates(keys, set x | x in b);
    CounterModeIsFirstMaximum(counts, keys);
    if trees != [] {
      assert b[0] in counts;
    }
    var r := Vote(trees, choices, order);
    if r.Some? {
      var v := r.value;
      TallyCountsVotes(trees, choices, v);
      var i :| 0 <= i < |b| && b[i] == v;
      assert Decide(trees[i], choices) == Some(v);
      forall w ensures VotesFor(trees, choices, w) <= VotesFor(trees, choices, v) {
        TallyCountsVotes(trees, choices, w);
      }
      forall i, j | 0 <= i < j < |keys| && keys[j] == v
        ensures VotesFor(trees, choices, keys[i]) < VotesFor(trees, choices, v)
      {
        TallyCountsVotes(trees, choices, keys[i]);
      }
    }
  }

  // ---------------------------------------------------------------- one vote per tree

  /** The sum of the counts of the keys listed in keys. */
  function SumCounts(counts: map<string, int>, keys: seq<string>): int {
    if keys == [] then 0
    else SumCounts(counts, keys[..|keys| - 1]) + Lookup(counts, keys[|keys| - 1])
  }

  /** One more occurrence of e raises the sum over distinct keys by one if e is listed. */
  lemma {:induction false} SumCountsBump(m: multiset<string>, e: string, keys: seq<string>)
    requires Distinct(keys)
    ensures SumOccurrences(m + multiset{e}, keys) == SumOccurrences(m, keys) + (if e in keys then 1 else 0)
  {
    if keys != [] {
      var init, last := keys[..|keys| - 1], keys[|keys| - 1];
      assert keys == init + [last];
      assert e in keys <==> e in init || e == last;
      assert last == e ==> e !in init by {
        forall i | 0 <= i < |init| ensures init[i] != last {
          assert init[i] == keys[i];
        }
      }
      SumCountsBump(m, e, init);
    }
  }

  /** The sum of the multiplicities in m of the keys listed in keys. */
  function SumOccurrences(m: multiset<string>, keys: seq<string>): nat {
    if keys == [] then 0
    else SumOccurrences(m, keys[..|keys| - 1]) + m[keys[|keys| - 1]]
  }

  /** Summed over distinct keys covering b, the occurrence counts of b add up to |b|. */
  lemma {:induction false} SumOccurrencesIsLength(b: seq<string>, keys: seq<string>)
    requires Distinct(keys) && forall x :: x in b ==> x in keys
    ensures SumOccurrences(multiset(b), keys) == |b|
  {
    if b == [] {
      ZeroOccurrences(keys);
    } else {
      var init, last := b[..|b| - 1], b[|b| - 1];
      assert b == init + [last];
      assert multiset(b) == multiset(init) + multiset{last};
      SumOccurrencesIsLength(init, keys);
      SumCountsBump(multiset(init), last, keys);
    }
  }

  lemma {:induction false} ZeroOccurrences(keys: seq<string>)
    ensures SumOccurrences(multiset{}, keys) == 0
  {
    if keys != [] {
      ZeroOccurrences(keys[..|keys| - 1]);
    }
  }

  /** Counts read off the counter agree with occurrence counts key by key. */
  lemma {:induction false} SumCountsOfAdded(b: seq<string>, keys: seq<string>)
    ensures SumCounts(Added(map[], b), keys) == SumOccurrences(multiset(b), keys)
  {
    AddedCounts(map[], b);
    if keys != [] {
      SumCountsOfAdded(b, keys[..|keys| - 1]);
    }
  }

  /**
   * decide casts exactly one vote per tree: summed over the counter's key set,
   * the counts add up to the number of trees.
   */
  lemma VotesSumToForestSize(trees: seq<DecisionTree>, choices: map<string, string>, keys: seq<string>)
    requires Decides(trees, choices) && Enumerates(keys, Tally(trees, choices).Keys)
    ensures SumCounts(Tally(trees, choices), keys) == |trees|
  {
    var b := Ballots(trees, choices);
    AddedCounts(map[], b);
    SumCountsOfAdded(b, keys);
    SumOccurrencesIsLength(b, keys);
  }

  // ---------------------------------------------------------------- testing

  /** Every tree decides every sample. */
  ghost predicate DecidesAll(trees: seq<DecisionTree>, samples: seq<Sample>) {
    forall j :: 0 <= j < |samples| ==> Decides(trees, samples[j].choices)
  }

  /** Whether the forest's decision on s equals s's decision (equals(null) is false). */
  function Hit(trees: seq<DecisionTree>, s: Sample, order: seq<string> -> seq<string>): bool
    requires Decides(trees, s.choices)
  {
    Vote(trees, s.choices, order) == Some(s.decision)
  }

  /** The number of samples the forest decides correctly. */
  function Correct(trees: seq<DecisionTree>, samples: seq<Sample>, order: seq<string> -> seq<string>): (c: nat)
    requires DecidesAll(trees, samples)
    ensures c <= |samples|
  {
    if samples == [] then 0
    else
      var init := samples[..|samples| - 1];
      assert DecidesAll(trees, init) by {
        forall j | 0 <= j < |init| ensures Decides(trees, init[j].choices) {
          assert init[j] == samples[j];
        }
      }
      Correct(trees, init, order) + (if Hit(trees, samples[|samples| - 1], order) then 1 else 0)
  }

  /** The correct count is additive over concatenation: test(a ++ b) == test(a) + test(b). */
  lemma {:induction false} CorrectAppend(trees: seq<DecisionTree>, a: seq<Sample>, b: seq<Sample>,
                                         order: seq<string> -> seq<string>)
    requires DecidesAll(trees, a) && DecidesAll(trees, b)
    ensures DecidesAll(trees, a + b)
    ensures Correct(trees, a + b, order) == Correct(trees, a, order) + Correct(trees, b, order)
    decreases |b|
  {
    assert DecidesAll(trees, a + b) by {
      forall j | 0 <= j < |a + b| ensures Decides(trees, (a + b)[j].choices) {
        if j >= |a| {
          assert (a + b)[j] == b[j - |a|];
        }
      }
    }
    if b == [] {
      assert a + b == a;
    } else {
      var init := b[..|b| - 1];
      assert (a + b)[..|a + b| - 1] == a + init;
      assert (a + b)[|a + b| - 1] == b[|b| - 1];
      assert DecidesAll(trees, init) by {
        forall j | 0 <= j < |init| ensures Decides(trees, init[j].choices) {
          assert init[j] == b[j];
        }
      }
      CorrectAppend(trees, a, init, order);
    }
  }

  /** One more sample raises the count by one exactly when the forest decides it correctly. */
  lemma CorrectStep(trees: seq<DecisionTree>, samples: seq<Sample>, i: nat, order: seq<string> -> seq<string>)
    requires DecidesAll(trees, samples) && i < |samples|
    ensures DecidesAll(trees, samples[..i]) && DecidesAll(trees, samples[..i + 1])
    ensures Correct(trees, samples[..i + 1], order) ==
              Correct(trees, samples[..i], order) + (if Hit(trees, samples[i], order) then 1 else 0)
  {
    var prefix := samples[..i + 1];
    assert prefix[..|prefix| - 1] == samples[..i] && prefix[|prefix| - 1] == samples[i];
    assert DecidesAll(trees, prefix) by {
      forall j | 0 <= j < |prefix| ensures Decides(trees, prefix[j].choices) {
        assert prefix[j] == samples[j];
      }
    }
  }

  /** The count reaches |samples| exactly when the forest decides every sample correctly. */
  lemma {:induction false} CorrectAllIff(trees: seq<DecisionTree>, samples: seq<Sample>,
                                         order: seq<string> -> seq<string>)
    requires DecidesAll(trees, samples)
    ensures Correct(trees, samples, order) == |samples| <==>
              forall j :: 0 <= j < |samples| ==> Hit(trees, samples[j], order)
  {
    if samples != [] {
      var init := samples[..|samples| - 1];
      assert DecidesAll(trees, init) by {
        forall j | 0 <= j < |init| ensures Decides(trees, init[j].choices) {
          assert init[j] == samples[j];
        }
      }
      CorrectAllIff(trees, init, order);
      assert forall j :: 0 <= j < |init| ==> init[j] == samples[j];
    }
  }

  /** A forest: its trees, the mutable public field of the source. */
  class RandomForest {
    var trees: seq<DecisionTree>

    constructor (trees: seq<DecisionTree>)
      ensures this.trees == trees
    {
      this.trees := trees;
    }

    /** growRandomForest: a new forest with size trees, tree i grown from bootstrap i. */
    static method GrowRandomForest(attrs: map<string, seq<string>>, samples: seq<Sample>, size: nat, n: nat,
                                   m: int, grow: Grower, draws: seq<seq<nat>>) returns (f: RandomForest)
      requires ValidDraws(samples, size, n, draws)
      ensures fresh(f)
      ensures f.trees == Grown(attrs, samples, m, grow, draws) && |f.trees| == size
    {
      var trees := GrowTrees(attrs, samples, size, n, m, grow, draws);
      f := new RandomForest(trees);
    }

    /**
     * decide: every tree votes into a fresh counter, whose mode is the answer.
     * The forest and the sample are left as they were.
     */
    method Decide(sample: Sample, order: seq<string> -> seq<string>) returns (d: Option<string>)
      requires Decides(trees, sample.choices) && IsKeyOrder(order)
      ensures d == Vote(trees, sample.choices, order)
    {
      var decisions := new Counter<string>();
      var cast: seq<string> := [];  // the insertion history, which fixes the key order
      ghost var b := Ballots(trees, sample.choices);
      for i := 0 to |trees|
        invariant decisions.Valid() && fresh(decisions)
        invariant cast == b[..i]
        invariant decisions.counts == Added(map[], cast)
      {
        var v := DecisionTrees.Decide(trees[i], sample.choices).value;
        var _ := decisions.Add(v);
        assert b[..i + 1] == cast + [v];
        cast := cast + [v];
      }
      assert cast == b;
      AddedFromEmpty(cast);
      d := decisions.Mode(order(cast));
    }

    /** test: the number of samples whose decision equals the forest's. */
    method Test(samples: seq<Sample>, order: seq<string> -> seq<string>) returns (correct: nat)
      requires DecidesAll(trees, samples) && IsKeyOrder(order)
      ensures correct == Correct(trees, samples, order)
      ensures correct <= |samples|
    {
      correct := 0;
      assert samples[..0] == [];
      for i := 0 to |samples|
        invariant DecidesAll(trees, samples[..i])
        invariant correct == Correct(trees, samples[..i], order)
      {
        CorrectStep(trees, samples, i, order);
        var d := Decide(samples[i], order);
        if d == Some(samples[i].decision) {
          correct := correct + 1;
        }
      }
      assert samples[..|samples|] == samples;
    }
  }
}
