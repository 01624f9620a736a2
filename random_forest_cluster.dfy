/**
 * RandomForestCluster.java: the forest used across the machines of a cluster.
 * Each machine grows and runs its own trees; the vote lists the machines send
 * back are merged index by index, and the merged lists' modes are compared with
 * the test samples' decisions. The parallel loops run their contiguous chunks
 * one after another here, with bounds giving the split (ForestSmp.Chunking).
 */
module ForestCluster {
  import opened Wrappers
  import opened Samples
  import opened DecisionTrees
  import opened Forests
  import ListUtils
  import ForestSmp

  /** A cluster forest: its trees. */
  class RandomForestCluster {
    var trees: seq<DecisionTree>

    constructor (trees: seq<DecisionTree>)
      ensures this.trees == trees
    {
      this.trees := trees;
    }

    /** growRandomForest: size trees, tree i grown from bootstrap i, as in the sequential forest. */
    static method GrowRandomForest(attrs: map<string, seq<string>>, samples: seq<Sample>, size: nat, n: nat,
                                   m: int, grow: Grower, draws: seq<seq<nat>>) returns (f: RandomForestCluster)
      requires ValidDraws(samples, size, n, draws)
      ensures fresh(f)
      ensures f.trees == Grown(attrs, samples, m, grow, draws) && |f.trees| == size
    {
      var trees := GrowTrees(attrs, samples, size, n, m, grow, draws);
      f := new RandomForestCluster(trees);
    }
  }

  // ---------------------------------------------------------------- merge

  /** A mutable list of decisions (a java.util.List<String> the code appends to). */
  class StringList {
    var elems: seq<string>

    constructor (elems: seq<string>)
      ensures this.elems == elems
    {
      this.elems := elems;
    }

    /** addAll: appends the other list's elements in order. */
    method AddAll(other: seq<string>)
      modifies this
      ensures elems == old(elems) + other
    {
      elems := elems + other;
    }
  }

  /** m has a list for every index 0 .. count - 1. */
  predicate HasIndices(m: map<int, StringList>, count: nat) {
    forall i :: 0 <= i < count ==> i in m
  }

  /**
   * The lists are pairwise distinct objects, and none of them is one of the
   * other map's lists, so appending to one changes no other list involved.
   */
  ghost predicate Unshared(decisionbyvote: map<int, StringList>, gather: map<int, StringList>) {
    && (forall i, j :: i in decisionbyvote && j in decisionbyvote && i != j ==>
          decisionbyvote[i] != decisionbyvote[j])
    && (forall i, j :: i in decisionbyvote && j in gather ==> decisionbyvote[i] != gather[j])
  }

  /**
   * merge: for each index i of gather, appends gather's list i to
   * decisionbyvote's list i in place and puts that same list object at key i
   * of a fresh result map. Every merged list is the old list i followed by
   * gather's list i; the result has exactly the keys 0 .. |gather| - 1 and its
   * lists are the input's lists (they alias); no other list changes.
   */
  method Merge(decisionbyvote: map<int, StringList>, gather: map<int, StringList>)
    returns (decisionbyvotes: map<int, StringList>)
    requires HasIndices(decisionbyvote, |gather|) && HasIndices(gather, |gather|)
    requires Unshared(decisionbyvote, gather)
    modifies set i | 0 <= i < |gather| :: decisionbyvote[i]
    ensures forall i :: i in decisionbyvotes <==> 0 <= i < |gather|
    ensures forall i :: 0 <= i < |gather| ==>
              && decisionbyvotes[i] == decisionbyvote[i]
              && decisionbyvotes[i].elems == old(decisionbyvote[i].elems) + old(gather[i].elems)
              && |decisionbyvotes[i].elems| == old(|decisionbyvote[i].elems|) + old(|gather[i].elems|)
    ensures forall i :: i in gather ==> gather[i].elems == old(gather[i].elems)
    ensures forall i :: i in decisionbyvote && !(0 <= i < |gather|) ==>
              decisionbyvote[i].elems == old(decisionbyvote[i].elems)
  {
    decisionbyvotes := map[];
    for i := 0 to |gather|
      invariant forall j :: j in decisionbyvotes <==> 0 <= j < i
      invariant forall j :: 0 <= j < i ==>
                  && decisionbyvotes[j] == decisionbyvote[j]
                  && decisionbyvote[j].elems == old(decisionbyvote[j].elems) + old(gather[j].elems)
      invariant forall j :: i <= j < |gather| ==> decisionbyvote[j].elems == old(decisionbyvote[j].elems)
      invariant forall j :: j in gather ==> gather[j].elems == old(gather[j].elems)
      invariant forall j :: j in decisionbyvote && !(0 <= j < |gather|) ==>
                  decisionbyvote[j].elems == old(decisionbyvote[j].elems)
    {
      var results := decisionbyvote[i];
      results.AddAll(gather[i].elems);
      decisionbyvotes := decisionbyvotes[i := results];
    }
  }

  // ---------------------------------------------------------------- merge as written: the shared field

  /**
   * One statement of merge's loop body, run by the thread that handles index
   * i: load decisionbyvote's list i into the static field results, append
   * gather's list i to whatever list results holds, or put that list at key i
   * of the result map.
   */
  datatype MergeStep = LoadResults(i: int) | AppendGathered(i: int) | PutResults(i: int)

  /**
   * What the threads share while merging: the decision lists' contents, keyed
   * by their index in decisionbyvote; the static field results, as the index
   * of the list it refers to (-1 for null); and the result map, from each key
   * to the index of the list stored there.
   */
  datatype SharedMerge = SharedMerge(lists: map<int, seq<string>>, results: int, out: map<int, int>)

  /** The shared state after one statement. */
  function RunStep(st: SharedMerge, gather: map<int, seq<string>>, step: MergeStep): SharedMerge {
    match step
    case LoadResults(i) => st.(results := i)
    case AppendGathered(i) =>
      if st.results in st.lists && i in gather then
        st.(lists := st.lists[st.results := st.lists[st.results] + gather[i]])
      else st
    case PutResults(i) => st.(out := st.out[i := st.results])
  }

  /** The shared state after the statements of schedule, in order: one interleaving of the threads. */
  function RunShared(st: SharedMerge, gather: map<int, seq<string>>, schedule: seq<MergeStep>): SharedMerge
    decreases |schedule|
  {
    if schedule == [] then st
    else RunShared(RunStep(st, gather, schedule[0]), gather, schedule[1..])
  }

  /** Running a schedule in two parts runs the first part, then the second. */
  lemma {:induction false} RunSharedAppend(st: SharedMerge, gather: map<int, seq<string>>,
                                           a: seq<MergeStep>, b: seq<MergeStep>)
    ensures RunShared(st, gather, a + b) == RunShared(RunShared(st, gather, a), gather, b)
    decreases |a|
  {
    if a == [] {
      assert a + b == b;
    } else {
      assert (a + b)[0] == a[0] && (a + b)[1..] == a[1..] + b;
      RunSharedAppend(RunStep(st, gather, a[0]), gather, a[1..], b);
    }
  }

  /** The loop body for index k run alone: list k grows by gather's list k and is stored at key k. */
  lemma {:induction false} BodyAlone(st: SharedMerge, gather: map<int, seq<string>>, k: int)
    requires k in st.lists && k in gather
    ensures RunShared(st, gather, [LoadResults(k), AppendGathered(k), PutResults(k)]) ==
              SharedMerge(st.lists[k := st.lists[k] + gather[k]], k, st.out[k := k])
  {
    var s1 := RunStep(st, gather, LoadResults(k));
    var s2 := RunStep(s1, gather, AppendGathered(k));
    var s3 := RunStep(s2, gather, PutResults(k));
    var body := [LoadResults(k), AppendGathered(k), PutResults(k)];
    assert body[1..] == [AppendGathered(k), PutResults(k)];
    assert [AppendGathered(k), PutResults(k)][1..] == [PutResults(k)];
    assert RunShared(s3, gather, []) == s3;
    assert RunShared(s2, gather, [PutResults(k)]) == s3;
    assert RunShared(s1, gather, [AppendGathered(k), PutResults(k)]) == s3;
  }

  /** The loop's statements for indices 0 .. n - 1, one index after another: a single thread. */
  function OneThread(n: nat): seq<MergeStep> {
    if n == 0 then [] else OneThread(n - 1) + [LoadResults(n - 1), AppendGathered(n - 1), PutResults(n - 1)]
  }

  /**
   * Run by a single thread, the merge as written does what Merge does: list i
   * becomes its old contents followed by gather's list i and is stored at key
   * i, for every i below n, and no other list changes.
   */
  lemma {:induction false} OneThreadMerges(st: SharedMerge, gather: map<int, seq<string>>, n: nat)
    requires forall i :: 0 <= i < n ==> i in st.lists && i in gather
    ensures var r := RunShared(st, gather, OneThread(n));
            && r.lists.Keys == st.lists.Keys
            && (forall i :: 0 <= i < n ==> r.lists[i] == st.lists[i] + gather[i])
            && (forall i :: i in st.lists && !(0 <= i < n) ==> r.lists[i] == st.lists[i])
            && (forall i :: 0 <= i < n ==> i in r.out && r.out[i] == i)
  {
    if n > 0 {
      OneThreadMerges(st, gather, n - 1);
      var body := [LoadResults(n - 1), AppendGathered(n - 1), PutResults(n - 1)];
      RunSharedAppend(st, gather, OneThread(n - 1), body);
      BodyAlone(RunShared(st, gather, OneThread(n - 1)), gather, n - 1);
    }
  }

  /**
   * Two threads, handling indices 0 and 1, each load results before either
   * appends. Both appends then go to list 1, list 0 keeps its old contents,
   * and key 0 of the result maps to list 1. Merge, which holds each list in a
   * variable of its own, appends gather's list 0 to list 0 and stores list 0
   * at key 0.
   */
  lemma SharedResultsRace()
    ensures var st := RunShared(SharedMerge(map[0 := ["a"], 1 := ["b"]], -1, map[]),
                                map[0 := ["c"], 1 := ["d"]],
                                [LoadResults(0), LoadResults(1), AppendGathered(0), AppendGathered(1),
                                 PutResults(0), PutResults(1)]);
            && st.lists == map[0 := ["a"], 1 := ["b", "c", "d"]]
            && st.out == map[0 := 1, 1 := 1]
  {
    var gather := map[0 := ["c"], 1 := ["d"]];
    var s0 := SharedMerge(map[0 := ["a"], 1 := ["b"]], -1, map[]);
    var s1 := RunStep(s0, gather, LoadResults(0));
    var s2 := RunStep(s1, gather, LoadResults(1));
    assert s2.results == 1 && s2.lists == s0.lists;
    var s3 := RunStep(s2, gather, AppendGathered(0));
    assert ["b"] + ["c"] == ["b", "c"];
    assert s3.lists == map[0 := ["a"], 1 := ["b", "c"]];
    var s4 := RunStep(s3, gather, AppendGathered(1));
    assert ["b", "c"] + ["d"] == ["b", "c", "d"];
    assert s4.lists == map[0 := ["a"], 1 := ["b", "c", "d"]];
    var s5 := RunStep(s4, gather, PutResults(0));
    var s6 := RunStep(s5, gather, PutResults(1));
    assert s6.out == map[0 := 1, 1 := 1];
  }

  // ---------------------------------------------------------------- counting correct decisions

  /** Whether the mode of the votes for sample i equals its decision (equals(null) is false). */
  function Agrees(testsamples: seq<Sample>, decisions: map<int, seq<string>>, i: nat): bool
    requires i < |testsamples| && i in decisions
  {
    ListUtils.ModeOf(decisions[i]) == Some(testsamples[i].decision)
  }

  /** The number of indices in [lo, hi) whose vote list's mode equals the sample's decision. */
  function CountRange(testsamples: seq<Sample>, decisions: map<int, seq<string>>, lo: nat, hi: nat): (c: nat)
    requires lo <= hi <= |testsamples|
    requires forall i :: lo <= i < hi ==> i in decisions
    ensures c <= hi - lo
    decreases hi - lo
  {
    if lo == hi then 0
    else CountRange(testsamples, decisions, lo, hi - 1) + (if Agrees(testsamples, decisions, hi - 1) then 1 else 0)
  }

  /** Counts over adjacent ranges add up. */
  lemma {:induction false} CountRangeSplit(testsamples: seq<Sample>, decisions: map<int, seq<string>>,
                                           lo: nat, mid: nat, hi: nat)
    requires lo <= mid <= hi <= |testsamples|
    requires forall i :: lo <= i < hi ==> i in decisions
    ensures CountRange(testsamples, decisions, lo, hi) ==
              CountRange(testsamples, decisions, lo, mid) + CountRange(testsamples, decisions, mid, hi)
    decreases hi - mid
  {
    if mid < hi {
      CountRangeSplit(testsamples, decisions, lo, mid, hi - 1);
    }
  }

  /** The count reaches the range's length exactly when every index in it agrees. */
  lemma {:induction false} CountRangeAllIff(testsamples: seq<Sample>, decisions: map<int, seq<string>>,
                                            lo: nat, hi: nat)
    requires lo <= hi <= |testsamples|
    requires forall i :: lo <= i < hi ==> i in decisions
    ensures CountRange(testsamples, decisions, lo, hi) == hi - lo <==>
              forall i :: lo <= i < hi ==> Agrees(testsamples, decisions, i)
    decreases hi - lo
  {
    if lo < hi {
      CountRangeAllIff(testsamples, decisions, lo, hi - 1);
    }
  }

  /**
   * One chunk of the counting loop: the number of indices in [first, last)
   * whose vote list's mode (ListUtils.mode) equals the sample's decision.
   */
  method CountChunk(testsamples: seq<Sample>, decisions: map<int, seq<string>>, first: nat, last: nat)
    returns (counterValue: nat)
    requires first <= last <= |testsamples|
    requires forall i :: first <= i < last ==> i in decisions
    ensures counterValue == CountRange(testsamples, decisions, first, last)
  {
    counterValue := 0;
    for i := first to last
      invariant counterValue == CountRange(testsamples, decisions, first, i)
    {
      var mode := ListUtils.Mode(decisions[i]);
      if mode == Some(testsamples[i].decision) {
        counterValue := counterValue + 1;
      }
    }
  }

  /**
   * numberOfCorrectDecisionsCluster: every chunk counts its agreeing indices
   * and adds the count to a shared total; the total is the number of indices
   * of testsamples whose vote list's mode equals the sample's decision, so it
   * lies between 0 and |testsamples|. decisions must hold a list for every
   * index, or the source dereferences null.
   */
  method NumberOfCorrectDecisionsCluster(testsamples: seq<Sample>, decisions: map<int, seq<string>>,
                                         bounds: seq<nat>) returns (counter: nat)
    requires forall i :: 0 <= i < |testsamples| ==> i in decisions
    requires ForestSmp.Chunking(bounds, |testsamples|)
    ensures counter == CountRange(testsamples, decisions, 0, |testsamples|)
    ensures counter <= |testsamples|
  {
    counter := 0;
    for c := 0 to |bounds| - 1
      invariant counter == CountRange(testsamples, decisions, 0, bounds[c])
    {
      var counterValue := CountChunk(testsamples, decisions, bounds[c], bounds[c + 1]);
      CountRangeSplit(testsamples, decisions, 0, bounds[c], bounds[c + 1]);
      counter := counter + counterValue;
    }
  }
}
