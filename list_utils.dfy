/**
 * ListUtils.java: list helpers. Randomness is supplied by the caller as index
 * oracles: each value the source derives from Math.random() is a parameter whose
 * range is stated as a precondition.
 */
module ListUtils {
  import opened Wrappers

  // ---------------------------------------------------------------- filter

  /** The elements of ls that satisfy p, in their original order. */
  function Filtered<T>(ls: seq<T>, p: T -> bool): (r: seq<T>)
    ensures |r| <= |ls|
    ensures forall x :: x in r ==> x in ls && p(x)
  {
    if ls == [] then []
    else
      var init, last := ls[..|ls| - 1], ls[|ls| - 1];
      assert ls == init + [last];
      Filtered(init, p) + (if p(last) then [last] else [])
  }

  /** Filtering keeps a single element exactly when it satisfies p. */
  lemma FilteredSingleton<T>(x: T, p: T -> bool)
    ensures Filtered([x], p) == if p(x) then [x] else []
  {
    assert [x][..0] == [];
  }

  /**
   * Filtering distributes over concatenation; with FilteredSingleton this fixes
   * it as the list of the satisfying elements in their original order.
   */
  lemma {:induction false} FilteredDistributes<T>(a: seq<T>, b: seq<T>, p: T -> bool)
    ensures Filtered(a + b, p) == Filtered(a, p) + Filtered(b, p)
    decreases |b|
  {
    if b == [] {
      assert a + b == a;
    } else {
      var init, last := b[..|b| - 1], b[|b| - 1];
      assert b == init + [last];
      assert (a + b)[..|a + b| - 1] == a + init;
      assert (a + b)[|a + b| - 1] == last;
      FilteredDistributes(a, init, p);
    }
  }

  /** An element occurs in the filtered list as often as in ls when it satisfies p, else never. */
  lemma {:induction false} FilteredCounts<T>(ls: seq<T>, p: T -> bool, x: T)
    ensures multiset(Filtered(ls, p))[x] == if p(x) then multiset(ls)[x] else 0
  {
    if ls != [] {
      var init, last := ls[..|ls| - 1], ls[|ls| - 1];
      assert ls == init + [last];
      FilteredCounts(init, p, x);
    }
  }

  /** filter: appends every element that passes the predicate to a fresh list. */
  method Filter<T>(ls: seq<T>, p: T -> bool) returns (result: seq<T>)
    ensures result == Filtered(ls, p)
  {
    result := [];
    for i := 0 to |ls|
      invariant result == Filtered(ls[..i], p)
    {
      var prefix := ls[..i + 1];
      assert prefix[..|prefix| - 1] == ls[..i] && prefix[|prefix| - 1] == ls[i];
      if p(ls[i]) {
        result := result + [ls[i]];
      }
    }
    assert ls[..|ls|] == ls;
  }

  // ---------------------------------------------------------------- map

  /** map: a list of the same length whose i-th element is the transform of the i-th input. */
  method Map<X, Y>(xs: seq<X>, t: X -> Y) returns (ys: seq<Y>)
    ensures |ys| == |xs|
    ensures forall i :: 0 <= i < |xs| ==> ys[i] == t(xs[i])
  {
    ys := [];
    for i := 0 to |xs|
      invariant |ys| == i
      invariant forall j :: 0 <= j < i ==> ys[j] == t(xs[j])
    {
      ys := ys + [t(xs[i])];
    }
  }

  // ---------------------------------------------------------------- mode

  /**
   * The index at which the c-th occurrence of x appears in list: the moment x's
   * running count reaches c.
   */
  function ReachIndex<T(==)>(list: seq<T>, x: T, c: nat): (i: nat)
    requires 1 <= c <= multiset(list)[x]
    ensures i < |list| && list[i] == x
    ensures multiset(list[..i])[x] == c - 1
    decreases |list|
  {
    var init, last := list[..|list| - 1], list[|list| - 1];
    assert list == init + [last];
    if c <= multiset(init)[x] then
      var i := ReachIndex(init, x, c);
      assert list[..i] == init[..i];
      i
    else
      |list| - 1
  }

  /** The largest count reached so far, which is the current mode's count (0 for none). */
  function MaxCount<T(==)>(list: seq<T>, mode: Option<T>): nat {
    if mode.Some? then multiset(list)[mode.value] else 0
  }

  /**
   * The mode as the source's scan computes it: an element replaces the current
   * mode only when its running count strictly exceeds the largest count so far.
   */
  function ModeOf<T(==)>(list: seq<T>): Option<T> {
    if list == [] then None
    else
      var init, e := list[..|list| - 1], list[|list| - 1];
      var best := ModeOf(init);
      if multiset(init)[e] + 1 > MaxCount(init, best) then Some(e) else best
  }

  /**
   * r is null exactly for the empty list; otherwise it is an element of the list
   * that occurs at least as often as any other.
   */
  ghost predicate IsModeOf<T>(list: seq<T>, r: Option<T>) {
    && (r.None? <==> list == [])
    && (r.Some? ==>
          && r.value in list
          && forall i :: 0 <= i < |list| ==> multiset(list)[list[i]] <= multiset(list)[r.value])
  }

  /** The scan computes a most frequent element, and null only for an empty list. */
  lemma ModeOfIsMaximal<T>(list: seq<T>)
    ensures IsModeOf(list, ModeOf(list))
    ensures forall y :: multiset(list)[y] <= MaxCount(list, ModeOf(list))
  {
    ModeOfIsModeOf(list);
    forall y ensures multiset(list)[y] <= MaxCount(list, ModeOf(list)) {
      if multiset(list)[y] > 0 {
        var i :| 0 <= i < |list| && list[i] == y;
      }
    }
  }

  lemma {:induction false} ModeOfIsModeOf<T>(list: seq<T>)
    ensures IsModeOf(list, ModeOf(list))
  {
    if list != [] {
      var init, e := list[..|list| - 1], list[|list| - 1];
      assert list == init + [e];
      ModeOfIsModeOf(init);
      ModeOfStep(init, e);
      if multiset(init)[e] + 1 > MaxCount(init, ModeOf(init)) {
        NewModeIsMaximal(init, e);
      } else {
        KeptModeIsMaximal(init, e);
      }
    }
  }

  /** An element whose count overtakes the running mode is a most frequent one. */
  lemma NewModeIsMaximal<T>(init: seq<T>, e: T)
    requires IsModeOf(init, ModeOf(init))
    requires multiset(init)[e] + 1 > MaxCount(init, ModeOf(init))
    ensures IsModeOf(init + [e], Some(e))
  {
    var list := init + [e];
    assert multiset(list) == multiset(init) + multiset{e};
    forall i | 0 <= i < |list| ensures multiset(list)[list[i]] <= multiset(list)[e] {
      var y := list[i];
      if y != e {
        assert y == init[i];
        assert multiset(init)[y] <= MaxCount(init, ModeOf(init));
      }
    }
  }

  /** An element that does not overtake the running mode leaves a most frequent one in place. */
  lemma KeptModeIsMaximal<T>(init: seq<T>, e: T)
    requires IsModeOf(init, ModeOf(init))
    requires multiset(init)[e] + 1 <= MaxCount(init, ModeOf(init))
    ensures ModeOf(init).Some?
    ensures IsModeOf(init + [e], ModeOf(init))
  {
    var list := init + [e];
    var v := ModeOf(init).value;
    assert v != e;
    assert multiset(list) == multiset(init) + multiset{e};
    forall i | 0 <= i < |list| ensures multiset(list)[list[i]] <= multiset(list)[v] {
      if i < |init| {
        assert list[i] == init[i];
      }
    }
  }

  /**
   * On a tie, the mode is the element that reached the maximal count first:
   * every other element occurring as often reached that count later.
   */
  lemma {:induction false} ModeOfIsFirstToReachMax<T>(list: seq<T>)
    requires list != []
    ensures var v := ModeOf(list).value;
            var top := multiset(list)[v];
            forall y :: y != v && multiset(list)[y] == top ==>
              ReachIndex(list, v, top) < ReachIndex(list, y, top)
  {
    var init, e := list[..|list| - 1], list[|list| - 1];
    assert list == init + [e];
    ModeOfIsModeOf(init);
    ModeOfStep(init, e);
    if multiset(init)[e] + 1 > MaxCount(init, ModeOf(init)) {
      NewModeHasNoTie(init, e);
    } else {
      ModeOfIsFirstToReachMax(init);
      KeptModeReachedFirst(init, e);
    }
  }

  /** An element that overtakes the running mode is strictly the most frequent. */
  lemma NewModeHasNoTie<T>(init: seq<T>, e: T)
    requires multiset(init)[e] + 1 > MaxCount(init, ModeOf(init))
    ensures forall y :: y != e ==> multiset(init + [e])[y] < multiset(init + [e])[e]
  {
    ModeOfIsMaximal(init);
    assert multiset(init + [e]) == multiset(init) + multiset{e};
  }

  /**
   * When e does not overtake the running mode v, v keeps having reached the
   * top count before every element tied with it, e included.
   */
  lemma KeptModeReachedFirst<T>(init: seq<T>, e: T)
    requires ModeOf(init).Some? && IsModeOf(init, ModeOf(init))
    requires multiset(init)[e] + 1 <= MaxCount(init, ModeOf(init))
    requires var v := ModeOf(init).value;
             var top := multiset(init)[v];
             forall y :: y != v && multiset(init)[y] == top ==>
               ReachIndex(init, v, top) < ReachIndex(init, y, top)
    ensures var v := ModeOf(init).value;
            var list := init + [e];
            var top := multiset(list)[v];
            forall y :: y != v && multiset(list)[y] == top ==>
              ReachIndex(list, v, top) < ReachIndex(list, y, top)
  {
    var list := init + [e];
    var v := ModeOf(init).value;
    var top := multiset(init)[v];
    assert v != e;
    assert multiset(list) == multiset(init) + multiset{e};
    assert multiset(list)[v] == top;
    ReachIndexInPrefix(init, e, v, top);
    forall y | y != v && multiset(list)[y] == top
      ensures ReachIndex(list, v, top) < ReachIndex(list, y, top)
    {
      if y != e {
        ReachIndexInPrefix(init, e, y, top);
      } else {
        assert ReachIndex(list, y, top) == |init|;
      }
    }
  }

  /** Appending an element does not move where an already reached count was reached. */
  lemma ReachIndexInPrefix<T>(init: seq<T>, e: T, x: T, c: nat)
    requires 1 <= c <= multiset(init)[x]
    ensures multiset(init + [e])[x] >= c
    ensures ReachIndex(init + [e], x, c) == ReachIndex(init, x, c)
  {
    var list := init + [e];
    assert list[..|list| - 1] == init;
  }

  /** The count map the scan has built after seeing list. */
  ghost function Occurrences<T>(list: seq<T>): map<T, nat> {
    if list == [] then map[]
    else
      var init, e := list[..|list| - 1], list[|list| - 1];
      var before := Occurrences(init);
      before[e := if e in before then before[e] + 1 else 1]
  }

  /** The count map holds exactly the elements seen, each with its number of occurrences. */
  lemma {:induction false} OccurrencesCount<T>(list: seq<T>, e: T)
    ensures e in Occurrences(list) <==> e in list
    ensures e in Occurrences(list) ==> Occurrences(list)[e] == multiset(list)[e]
  {
    if list != [] {
      var init, last := list[..|list| - 1], list[|list| - 1];
      assert list == init + [last];
      OccurrencesCount(init, e);
    }
  }

  /** One step of the scan: how the count map changes when e is appended. */
  lemma OccurrencesStep<T>(init: seq<T>, e: T)
    ensures Occurrences(init + [e]) ==
              Occurrences(init)[e := if e in Occurrences(init) then Occurrences(init)[e] + 1 else 1]
    ensures e in Occurrences(init) ==> Occurrences(init)[e] == multiset(init)[e]
    ensures e !in Occurrences(init) ==> multiset(init)[e] == 0
  {
    var list := init + [e];
    assert list[..|list| - 1] == init && list[|list| - 1] == e;
    OccurrencesCount(init, e);
  }

  /** One step of the scan: how the mode and the largest count change when e is appended. */
  lemma ModeOfStep<T>(init: seq<T>, e: T)
    ensures var best := ModeOf(init);
            var n := multiset(init)[e] + 1;
            && ModeOf(init + [e]) == (if n > MaxCount(init, best) then Some(e) else best)
            && MaxCount(init + [e], ModeOf(init + [e])) ==
                 (if n > MaxCount(init, best) then n else MaxCount(init, best))
  {
    var list := init + [e];
    assert list[..|list| - 1] == init && list[|list| - 1] == e;
    assert multiset(list) == multiset(init) + multiset{e};
    var best := ModeOf(init);
    if best.Some? && best.value == e {
      assert MaxCount(init, best) == multiset(init)[e];
    }
  }

  /**
   * The body of the source's loop, taken from the state after list[..i] to the
   * state after list[..i + 1].
   */
  lemma ScanStep<T>(list: seq<T>, i: nat, counts: map<T, nat>, mode: Option<T>, max: nat)
    requires i < |list|
    requires counts == Occurrences(list[..i])
    requires mode == ModeOf(list[..i]) && max == MaxCount(list[..i], mode)
    ensures var e := list[i];
            var n := if e in counts then counts[e] + 1 else 1;
            && counts[e := n] == Occurrences(list[..i + 1])
            && (if n > max then Some(e) else mode) == ModeOf(list[..i + 1])
            && (if n > max then n else max) == MaxCount(list[..i + 1], ModeOf(list[..i + 1]))
  {
    var seen, e := list[..i], list[i];
    assert list[..i + 1] == seen + [e];
    OccurrencesStep(seen, e);
    ModeOfStep(seen, e);
  }

  /**
   * mode: counts each element in a map as it goes and keeps the element whose
   * count first exceeds the running maximum; null for an empty list.
   */
  method Mode<T(==)>(list: seq<T>) returns (currentMode: Option<T>)
    ensures currentMode == ModeOf(list)
    ensures currentMode.None? <==> list == []
    ensures currentMode.Some? ==>
              currentMode.value in list &&
              forall y :: multiset(list)[y] <= multiset(list)[currentMode.value]
  {
    currentMode := None;
    var max := 0;
    var counts: map<T, nat> := map[];
    assert list[..0] == [];
    for i := 0 to |list|
      invariant currentMode == ModeOf(list[..i])
      invariant max == MaxCount(list[..i], currentMode)
      invariant counts == Occurrences(list[..i])
    {
      ScanStep(list, i, counts, currentMode, max);
      var e := list[i];
      var n;
      if e !in counts {
        n := 1;
      } else {
        n := counts[e] + 1;
      }
      counts := counts[e := n];
      if n > max {
        currentMode := Some(e);
        max := n;
      }
    }
    assert list[..|list|] == list;
    ModeOfIsMaximal(list);
  }

  // ---------------------------------------------------------------- random sampling

  /** random: the element at the index the random source picked, which lies in [0, size). */
  function Random<T>(list: seq<T>, r: nat): (x: T)
    requires r < |list|
    ensures x in list
  {
    list[r]
  }

  /** The bootstrap list drawn with the picked indices draws, one element per draw. */
  function Bootstrap<T>(source: seq<T>, draws: seq<nat>): (r: seq<T>)
    requires forall j :: 0 <= j < |draws| ==> draws[j] < |source|
    ensures |r| == |draws|
    ensures forall x :: x in r ==> x in source
  {
    seq(|draws|, j requires 0 <= j < |draws| => source[draws[j]])
  }

  /** choices: n elements of source drawn WITH replacement, draws[j] being the j-th pick. */
  method Choices<T>(source: seq<T>, n: nat, draws: seq<nat>) returns (result: seq<T>)
    requires |draws| == n
    requires forall j :: 0 <= j < n ==> draws[j] < |source|
    ensures result == Bootstrap(source, draws)
    ensures |result| == n && forall x :: x in result ==> x in source
  {
    result := [];
    for i := 0 to n
      invariant result == Bootstrap(source, draws[..i])
    {
      result := result + [Random(source, draws[i])];
    }
    assert draws[..n] == draws;
  }

  /**
   * Taking the element at k out of pool, by moving pool[0] into its place and
   * dropping the front, leaves the rest of the pool's elements.
   */
  lemma TakeOut<T>(pool: seq<T>, k: nat)
    requires k < |pool|
    ensures multiset(pool) == multiset{pool[k]} + multiset(pool[k := pool[0]][1..])
  {
    var rest := pool[k := pool[0]][1..];
    if k == 0 {
      assert pool == [pool[0]] + rest;
    } else {
      var front, mid, back := [pool[0]], pool[1..k], pool[k + 1..];
      assert rest == mid + front + back;
      assert pool == front + mid + [pool[k]] + back;
      assert multiset(rest) == multiset(mid) + multiset(front) + multiset(back);
      assert multiset(pool) == multiset(front) + multiset(mid) + multiset{pool[k]} + multiset(back);
    }
  }

  /**
   * What the partial Fisher–Yates loop draws from pool: offsets[i] is the
   * i-th random offset (int)(Math.random() * (n - i)); the picked element is
   * taken out and the pool's first element moves into its place.
   */
  function Drawn<T>(pool: seq<T>, offsets: seq<nat>): (r: seq<T>)
    requires |offsets| <= |pool|
    requires forall i :: 0 <= i < |offsets| ==> offsets[i] < |pool| - i
    ensures |r| == |offsets|
    decreases |offsets|
  {
    if offsets == [] then []
    else
      var k := offsets[0];
      [pool[k]] + Drawn(pool[k := pool[0]][1..], offsets[1..])
  }

  /** The draws come from pairwise distinct positions of the pool: they form a sub-multiset of it. */
  lemma {:induction false} DrawnFromDistinctPositions<T>(pool: seq<T>, offsets: seq<nat>)
    requires |offsets| <= |pool|
    requires forall i :: 0 <= i < |offsets| ==> offsets[i] < |pool| - i
    ensures multiset(Drawn(pool, offsets)) <= multiset(pool)
    decreases |offsets|
  {
    if offsets != [] {
      var k := offsets[0];
      var rest := pool[k := pool[0]][1..];
      TakeOut(pool, k);
      DrawnFromDistinctPositions(rest, offsets[1..]);
    }
  }

  /**
   * One turn of the partial Fisher–Yates loop on the array contents s: the
   * element at r = i + offsets[i] is drawn, and writing s[i] over s[r] leaves
   * the rest of the pool in s[i + 1..].
   */
  lemma DrawStep<T>(s: seq<T>, i: nat, offsets: seq<nat>)
    requires i < |offsets| <= |s|
    requires forall j :: 0 <= j < |offsets| ==> offsets[j] < |s| - j
    ensures var r := i + offsets[i];
            && Drawn(s[i..], offsets[i..]) == [s[r]] + Drawn(s[r := s[i]][i + 1..], offsets[i + 1..])
            && multiset(s[i..]) == multiset{s[r]} + multiset(s[r := s[i]][i + 1..])
  {
    var r, pool := i + offsets[i], s[i..];
    assert s[r := s[i]][i + 1..] == pool[offsets[i] := pool[0]][1..];
    assert offsets[i..][1..] == offsets[i + 1..];
    TakeOut(pool, offsets[i]);
  }

  /**
   * The state of the partial Fisher–Yates loop after i draws: pool is the
   * array's contents, result ++ pool[i..] is a permutation of source, and the
   * draws still to come from pool[i..] complete result to Drawn(source, offsets).
   */
  ghost predicate Drawing<T>(source: seq<T>, offsets: seq<nat>, pool: seq<T>, i: nat, result: seq<T>)
  {
    && |pool| == |source|
    && i <= |offsets| <= |source|
    && (forall j :: 0 <= j < |offsets| ==> offsets[j] < |source| - j)
    && result + Drawn(pool[i..], offsets[i..]) == Drawn(source, offsets)
    && multiset(result) + multiset(pool[i..]) == multiset(source)
  }

  lemma DrawingStep<T>(source: seq<T>, offsets: seq<nat>, pool: seq<T>, i: nat, result: seq<T>)
    requires Drawing(source, offsets, pool, i, result) && i < |offsets|
    ensures var r := i + offsets[i];
            Drawing(source, offsets, pool[r := pool[i]], i + 1, result + [pool[r]])
  {
    var r := i + offsets[i];
    DrawStep(pool, i, offsets);
    assert (result + [pool[r]]) + Drawn(pool[r := pool[i]][i + 1..], offsets[i + 1..])
        == result + Drawn(pool[i..], offsets[i..]);
  }

  /**
   * sample: m values of source WITHOUT replacement. When source has at most m
   * elements it is copied whole; otherwise the partial Fisher–Yates loop runs on
   * an array copy a, keeping the invariant that result ++ a[i..] is a
   * permutation of source, so the result is drawn from distinct positions.
   */
  method Sample<T>(source: seq<T>, m: nat, offsets: seq<nat>) returns (result: seq<T>)
    requires |source| > m ==> |offsets| == m
    requires |source| > m ==> forall i :: 0 <= i < m ==> offsets[i] < |source| - i
    ensures |source| <= m ==> result == source
    ensures |source| > m ==> result == Drawn(source, offsets) && |result| == m
    ensures multiset(result) <= multiset(source)
  {
    var n := |source|;
    if n <= m {
      return source;
    }
    result := [];
    var a := new T[n](j requires 0 <= j < n => source[j]);
    assert a[..][0..] == a[..] == source;
    assert offsets[0..] == offsets;
    for i := 0 to m
      invariant Drawing(source, offsets, a[..], i, result)
    {
      var r := i + offsets[i];
      DrawingStep(source, offsets, a[..], i, result);
      result := result + [a[r]];
      a[r] := a[i];
    }
    assert offsets[m..] == [];
  }
}
