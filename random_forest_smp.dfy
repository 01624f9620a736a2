/**
 * RandomForestSmp.java: the same forest, grown and tested by a parallel loop.
 * The loop's index range is split into contiguous chunks [first, last], each
 * run by one thread. Here the chunks run one after another, and bounds gives
 * the split: chunk c covers the indices bounds[c] .. bounds[c + 1] - 1 (an
 * empty chunk is allowed). RandomForestSmp extends RandomForest, so its forests
 * are Forests.RandomForest objects; the two methods it overrides are the
 * methods of this module.
 */
module ForestSmp {
  import opened Wrappers
  import opened Samples
  import opened DecisionTrees
  import opened Forests
  import ListUtils

  /** bounds splits 0 .. total - 1 into contiguous chunks, in order. */
  ghost predicate Chunking(bounds: seq<nat>, total: nat) {
    && |bounds| >= 1
    && bounds[0] == 0
    && bounds[|bounds| - 1] == total
    && forall k, l :: 0 <= k <= l < |bounds| ==> bounds[k] <= bounds[l]
  }

  /** The trees held by a slot list in which no slot is null. */
  function Unwrapped(slots: seq<Option<DecisionTree>>): (trees: seq<DecisionTree>)
    requires forall i :: 0 <= i < |slots| ==> slots[i].Some?
    ensures |trees| == |slots| && forall i :: 0 <= i < |slots| ==> slots[i] == Some(trees[i])
  {
    seq(|slots|, i requires 0 <= i < |slots| => slots[i].value)
  }

  /**
   * One chunk of the growing loop: iteration i grows tree i from bootstrap i
   * and sets slot i; slots outside [first, last) are left as they were.
   */
  method GrowChunk(attrs: map<string, seq<string>>, samples: seq<Sample>, n: nat, m: int, grow: Grower,
                   draws: seq<seq<nat>>, slots: seq<Option<DecisionTree>>, first: nat, last: nat)
    returns (filled: seq<Option<DecisionTree>>)
    requires ValidDraws(samples, |slots|, n, draws)
    requires first <= last <= |slots|
    ensures |filled| == |slots|
    ensures forall j :: first <= j < last ==> filled[j] == Some(Grown(attrs, samples, m, grow, draws)[j])
    ensures forall j :: 0 <= j < |slots| && !(first <= j < last) ==> filled[j] == slots[j]
  {
    filled := slots;
    for i := first to last
      invariant |filled| == |slots|
      invariant forall j :: first <= j < i ==> filled[j] == Some(Grown(attrs, samples, m, grow, draws)[j])
      invariant forall j :: 0 <= j < |slots| && !(first <= j < i) ==> filled[j] == slots[j]
    {
      var sampleChoices := ListUtils.Choices(samples, n, draws[i]);
      filled := filled[i := Some(grow(attrs, sampleChoices, m))];
    }
  }

  /**
   * growRandomForest: a list of size null slots (prefilled), then every chunk
   * fills its slots. Once the chunks cover 0 .. size - 1 no slot is null
   * (filled), and the forest holds the trees of the filled slots, which are the
   * trees the sequential growRandomForest grows from the same picks.
   */
  method GrowRandomForest(attrs: map<string, seq<string>>, samples: seq<Sample>, size: nat, n: nat, m: int,
                          grow: Grower, draws: seq<seq<nat>>, bounds: seq<nat>)
    returns (f: RandomForest, ghost prefilled: seq<Option<DecisionTree>>, ghost filled: seq<Option<DecisionTree>>)
    requires ValidDraws(samples, size, n, draws)
    requires Chunking(bounds, size)
    ensures |prefilled| == size && forall j :: 0 <= j < size ==> prefilled[j] == None
    ensures |filled| == size && forall j :: 0 <= j < size ==> filled[j].Some?
    ensures fresh(f)
    ensures f.trees == Unwrapped(filled)
    ensures f.trees == Grown(attrs, samples, m, grow, draws) && |f.trees| == size
  {
    var slots: seq<Option<DecisionTree>> := [];
    for i := 0 to size
      invariant |slots| == i && forall j :: 0 <= j < i ==> slots[j] == None
    {
      slots := slots + [None];
    }
    prefilled := slots;
    ghost var trees := Grown(attrs, samples, m, grow, draws);
    for c := 0 to |bounds| - 1
      invariant |slots| == size
      invariant forall j :: 0 <= j < bounds[c] ==> slots[j] == Some(trees[j])
      invariant forall j :: bounds[c] <= j < size ==> slots[j] == None
    {
      slots := GrowChunk(attrs, samples, n, m, grow, draws, slots, bounds[c], bounds[c + 1]);
    }
    filled := slots;
    f := new RandomForest(Unwrapped(slots));
  }

  /** The correct counts of the chunks given by bounds, summed. */
  function ChunkSum(trees: seq<DecisionTree>, samples: seq<Sample>, order: seq<string> -> seq<string>,
                    bounds: seq<nat>): nat
    requires DecidesAll(trees, samples)
    requires forall k, l :: 0 <= k <= l < |bounds| ==> bounds[k] <= bounds[l] <= |samples|
  {
    if |bounds| <= 1 then 0
    else
      var lo, hi := bounds[|bounds| - 2], bounds[|bounds| - 1];
      DecidesAllSlice(trees, samples, lo, hi);
      ChunkSum(trees, samples, order, bounds[..|bounds| - 1]) + Correct(trees, samples[lo..hi], order)
  }

  /** Every tree decides every sample of a slice of samples it decides. */
  lemma DecidesAllSlice(trees: seq<DecisionTree>, samples: seq<Sample>, lo: nat, hi: nat)
    requires DecidesAll(trees, samples) && lo <= hi <= |samples|
    ensures DecidesAll(trees, samples[lo..hi])
  {
    forall j | 0 <= j < hi - lo ensures Decides(trees, samples[lo..hi][j].choices) {
      assert samples[lo..hi][j] == samples[lo + j];
    }
  }

  /**
   * For any split of the samples into contiguous chunks, the chunks' correct
   * counts add up to the sequential test's count.
   */
  lemma ChunkSumIsCorrect(trees: seq<DecisionTree>, samples: seq<Sample>, order: seq<string> -> seq<string>,
                          bounds: seq<nat>)
    requires DecidesAll(trees, samples) && Chunking(bounds, |samples|)
    ensures ChunkSum(trees, samples, order, bounds) == Correct(trees, samples, order)
  {
    ChunkSumOfPrefix(trees, samples, order, bounds);
    assert samples[..|samples|] == samples;
  }

  lemma {:induction false} ChunkSumOfPrefix(trees: seq<DecisionTree>, samples: seq<Sample>,
                                            order: seq<string> -> seq<string>, bounds: seq<nat>)
    requires DecidesAll(trees, samples)
    requires |bounds| >= 1 && bounds[0] == 0
    requires forall k, l :: 0 <= k <= l < |bounds| ==> bounds[k] <= bounds[l] <= |samples|
    ensures var last := bounds[|bounds| - 1];
            DecidesAll(trees, samples[..last]) &&
            ChunkSum(trees, samples, order, bounds) == Correct(trees, samples[..last], order)
  {
    var last := bounds[|bounds| - 1];
    DecidesAllSlice(trees, samples, 0, last);
    assert samples[0..last] == samples[..last];
    if |bounds| == 1 {
      assert samples[..last] == [];
    } else {
      var init := bounds[..|bounds| - 1];
      var lo := init[|init| - 1];
      ChunkSumOfPrefix(trees, samples, order, init);
      DecidesAllSlice(trees, samples, 0, lo);
      DecidesAllSlice(trees, samples, lo, last);
      assert samples[0..lo] == samples[..lo];
      assert samples[..lo] + samples[lo..last] == samples[..last];
      CorrectAppend(trees, samples[..lo], samples[lo..last], order);
    }
  }

  /** One chunk of the test loop: the number of correct samples among samples[first..last]. */
  method TestChunk(f: RandomForest, samples: seq<Sample>, order: seq<string> -> seq<string>,
                   first: nat, last: nat) returns (tCorrect: nat)
    requires first <= last <= |samples|
    requires DecidesAll(f.trees, samples) && IsKeyOrder(order)
    ensures DecidesAll(f.trees, samples[first..last])
    ensures tCorrect == Correct(f.trees, samples[first..last], order)
  {
    DecidesAllSlice(f.trees, samples, first, last);
    var chunk := samples[first..last];
    tCorrect := 0;
    assert chunk[..0] == [];
    for i := 0 to |chunk|
      invariant DecidesAll(f.trees, chunk[..i])
      invariant tCorrect == Correct(f.trees, chunk[..i], order)
    {
      CorrectStep(f.trees, chunk, i, order);
      var d := f.Decide(chunk[i], order);
      if d == Some(chunk[i].decision) {
        tCorrect := tCorrect + 1;
      }
    }
    assert chunk[..|chunk|] == chunk;
  }

  /**
   * test: every chunk counts its correct samples and adds the count to a
   * shared total. The total equals the sequential test's, whatever the split,
   * so it lies between 0 and the number of samples, and is 0 for no samples.
   */
  method Test(f: RandomForest, samples: seq<Sample>, order: seq<string> -> seq<string>, bounds: seq<nat>)
    returns (correct: nat)
    requires Chunking(bounds, |samples|)
    requires DecidesAll(f.trees, samples) && IsKeyOrder(order)
    ensures correct == Correct(f.trees, samples, order)
    ensures correct <= |samples|
    ensures samples == [] ==> correct == 0
  {
    correct := 0;
    for c := 0 to |bounds| - 1
      invariant correct == ChunkSum(f.trees, samples, order, bounds[..c + 1])
    {
      var tCorrect := TestChunk(f, samples, order, bounds[c], bounds[c + 1]);
      assert bounds[..c + 2][..c + 1] == bounds[..c + 1];
      correct := correct + tCorrect;
    }
    assert bounds[..|bounds|] == bounds;
    ChunkSumIsCorrect(f.trees, samples, order, bounds);
  }
}
