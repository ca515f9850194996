/** Greedy non-maximum suppression, in the Rust and the C++ version. */
module Nms {
  import opened Boxes

  datatype Detection = Detection(bbox: BoundingBox, classId: nat, confidence: real, frameSeq: nat)

  // ---- Sorting by confidence, highest first ----

  predicate Sorted(s: seq<Detection>) {
    forall i, j | 0 <= i < j < |s| :: s[i].confidence >= s[j].confidence
  }

  predicate DistinctConfidences(s: seq<Detection>) {
    forall i, j | 0 <= i < j < |s| :: s[i].confidence != s[j].confidence
  }

  /** d goes behind every entry that is not below it. */
  function InsertLast(s: seq<Detection>, d: Detection): seq<Detection> {
    if s == [] then [d]
    else if s[|s| - 1].confidence >= d.confidence then s + [d]
    else InsertLast(s[..|s| - 1], d) + [s[|s| - 1]]
  }

  /** What a stable sort by descending confidence returns. */
  function StableSort(s: seq<Detection>): seq<Detection> {
    if s == [] then [] else InsertLast(StableSort(s[..|s| - 1]), s[|s| - 1])
  }

  /** The entries of one confidence, in order. */
  function OfConfidence(s: seq<Detection>, c: real): seq<Detection> {
    if s == [] then []
    else if s[|s| - 1].confidence == c then OfConfidence(s[..|s| - 1], c) + [s[|s| - 1]]
    else OfConfidence(s[..|s| - 1], c)
  }

  lemma {:induction false} InsertLastKeepsAll(s: seq<Detection>, d: Detection)
    ensures multiset(InsertLast(s, d)) == multiset(s) + multiset{d}
  {
    if s != [] && s[|s| - 1].confidence < d.confidence {
      InsertLastKeepsAll(s[..|s| - 1], d);
      assert s == s[..|s| - 1] + [s[|s| - 1]];
    }
  }

  lemma {:induction false} InsertLastSorts(s: seq<Detection>, d: Detection)
    requires Sorted(s)
    ensures Sorted(InsertLast(s, d))
  {
    if s != [] && s[|s| - 1].confidence < d.confidence {
      var front, last := s[..|s| - 1], s[|s| - 1];
      InsertLastSorts(front, d);
      InsertLastKeepsAll(front, d);
      var r := InsertLast(front, d);
      forall i | 0 <= i < |r| ensures r[i].confidence >= last.confidence {
        assert r[i] in multiset(front) + multiset{d};
      }
    }
  }

  lemma {:induction false} InsertLastIsStable(s: seq<Detection>, d: Detection, c: real)
    requires Sorted(s)
    ensures OfConfidence(InsertLast(s, d), c) ==
            if d.confidence == c then OfConfidence(s, c) + [d] else OfConfidence(s, c)
  {
    if s == [] || s[|s| - 1].confidence >= d.confidence {
      assert (s + [d])[..|s|] == s;
    } else {
      var front, last := s[..|s| - 1], s[|s| - 1];
      InsertLastIsStable(front, d, c);
      var r := InsertLast(front, d);
      assert (r + [last])[..|r|] == r;
    }
  }

  /** The sort orders, keeps every entry, and keeps the order among equals. */
  lemma {:induction false} StableSortSorts(s: seq<Detection>, c: real)
    ensures Sorted(StableSort(s))
    ensures multiset(StableSort(s)) == multiset(s)
    ensures OfConfidence(StableSort(s), c) == OfConfidence(s, c)
  {
    hide InsertLast;
    if s != [] {
      var front, last := s[..|s| - 1], s[|s| - 1];
      StableSortSorts(front, c);
      InsertLastSorts(StableSort(front), last);
      InsertLastKeepsAll(StableSort(front), last);
      InsertLastIsStable(StableSort(front), last, c);
      assert s == front + [last];
    }
  }

  lemma {:induction false} SortedIsFixed(s: seq<Detection>)
    requires Sorted(s)
    ensures StableSort(s) == s
  {
    if s != [] {
      SortedIsFixed(s[..|s| - 1]);
      assert s == s[..|s| - 1] + [s[|s| - 1]];
    }
  }

  /** The first of two sorted orders of the same entries is the same. */
  lemma SameHead(s: seq<Detection>, t: seq<Detection>)
    requires Sorted(s) && Sorted(t) && multiset(s) == multiset(t) && DistinctConfidences(s) && s != [] && t != []
    ensures s[0] == t[0]
  {
    assert s[0] in multiset(t) && t[0] in multiset(s);
    var i :| 0 <= i < |s| && s[i] == t[0];
    var j :| 0 <= j < |t| && t[j] == s[0];
    assert s[0].confidence >= s[i].confidence && t[0].confidence >= t[j].confidence;
  }

  /** With distinct confidences there is only one sorted order. */
  lemma {:induction false} SortedIsUnique(s: seq<Detection>, t: seq<Detection>)
    requires Sorted(s) && Sorted(t) && multiset(s) == multiset(t) && DistinctConfidences(s)
    ensures s == t
  {
    if s == [] || t == [] {
      assert |multiset(s)| == |multiset(t)|;
    } else {
      SameHead(s, t);
      TailMultiset(s);
      TailMultiset(t);
      SortedIsUnique(s[1..], t[1..]);
    }
  }

  lemma TailMultiset(s: seq<Detection>)
    requires s != []
    ensures s == [s[0]] + s[1..]
    ensures multiset(s[1..]) == multiset(s) - multiset{s[0]}
  {
    assert s == [s[0]] + s[1..];
  }

  // ---- The greedy choice ----

  predicate Overlaps(s: seq<Detection>, threshold: real, k: nat, j: nat)
    requires k < |s| && j < |s|
  {
    Iou(s[k].bbox, s[j].bbox) > threshold
  }

  /** Entry j survives when it overlaps no survivor before it. */
  predicate Kept(s: seq<Detection>, threshold: real, j: nat)
    requires j < |s|
  {
    forall k: nat | k < j :: Kept(s, threshold, k) ==> !Overlaps(s, threshold, k, j)
  }

  /** The survivors among the first n entries, in order. */
  function Survivors(s: seq<Detection>, threshold: real, n: nat): seq<Detection>
    requires n <= |s|
  {
    if n == 0 then []
    else if Kept(s, threshold, n - 1) then Survivors(s, threshold, n - 1) + [s[n - 1]]
    else Survivors(s, threshold, n - 1)
  }

  /** The result of suppression on an unsorted list. */
  function Suppressed(detections: seq<Detection>, threshold: real): seq<Detection> {
    var s := StableSort(detections);
    Survivors(s, threshold, |s|)
  }

  /** A choice of indices in which chosen entries do not overlap, and every entry left
      out overlaps an earlier chosen one. */
  ghost predicate Characterised(s: seq<Detection>, threshold: real, keep: set<nat>) {
    && (forall k | k in keep :: k < |s|)
    && (forall k, j | k in keep && j in keep && k < j :: !Overlaps(s, threshold, k, j))
    && (forall j: nat | j < |s| && j !in keep :: exists k :: k in keep && k < j && Overlaps(s, threshold, k, j))
  }

  /** The survivors are the one and only such choice. */
  lemma SurvivorsCharacterised(s: seq<Detection>, threshold: real, keep: set<nat>)
    ensures Characterised(s, threshold, keep) <==> keep == set j: nat | j < |s| && Kept(s, threshold, j)
  {
    hide Iou;
    if Characterised(s, threshold, keep) {
      forall j: nat | j < |s| ensures j in keep <==> Kept(s, threshold, j) {
        ChoiceIsForced(s, threshold, keep, j);
      }
    }
  }

  lemma {:induction false} ChoiceIsForced(s: seq<Detection>, threshold: real, keep: set<nat>, j: nat)
    requires Characterised(s, threshold, keep) && j < |s|
    ensures j in keep <==> Kept(s, threshold, j)
  {
    hide Iou;
    forall k: nat | k < j ensures k in keep <==> Kept(s, threshold, k) {
      ChoiceIsForced(s, threshold, keep, k);
    }
  }

  /** The recursive definition: keep the best entry, drop what overlaps it, repeat. */
  function Greedy(s: seq<Detection>, threshold: real): seq<Detection>
    decreases |s|
  {
    if s == [] then []
    else [s[0]] + Greedy(Clear(s[1..], s[0], threshold), threshold)
  }

  function Clear(s: seq<Detection>, best: Detection, threshold: real): (r: seq<Detection>)
    ensures |r| <= |s|
  {
    if s == [] then []
    else if Iou(best.bbox, s[0].bbox) > threshold then Clear(s[1..], best, threshold)
    else [s[0]] + Clear(s[1..], best, threshold)
  }

  // ---- The survivors are what the recursive definition keeps ----

  predicate Hits(kept: seq<Detection>, d: Detection, threshold: real) {
    exists i :: 0 <= i < |kept| && Iou(kept[i].bbox, d.bbox) > threshold
  }

  /** Go on from the survivors so far. */
  function Continue(kept: seq<Detection>, s: seq<Detection>, threshold: real): seq<Detection>
    decreases |s|
  {
    if s == [] then kept
    else Continue(if Hits(kept, s[0], threshold) then kept else kept + [s[0]], s[1..], threshold)
  }

  function ClearAll(s: seq<Detection>, kept: seq<Detection>, threshold: real): seq<Detection> {
    if s == [] then []
    else if Hits(kept, s[0], threshold) then ClearAll(s[1..], kept, threshold)
    else [s[0]] + ClearAll(s[1..], kept, threshold)
  }

  /** d stands at one of the first n indices that is kept. */
  ghost predicate StandsKept(s: seq<Detection>, threshold: real, n: nat, d: Detection)
    requires n <= |s|
  {
    exists k: nat :: k < n && Kept(s, threshold, k) && s[k] == d
  }

  /** The survivors are the entries at kept indices. */
  lemma {:induction false} SurvivorsAre(s: seq<Detection>, threshold: real, n: nat, d: Detection)
    requires n <= |s|
    ensures d in Survivors(s, threshold, n) <==> StandsKept(s, threshold, n, d)
  {
    hide Iou;
    if n > 0 {
      SurvivorsAre(s, threshold, n - 1, d);
    }
  }

  lemma KeptMeansNoHit(s: seq<Detection>, threshold: real, j: nat)
    requires j < |s|
    ensures Kept(s, threshold, j) <==> !Hits(Survivors(s, threshold, j), s[j], threshold)
  {
    hide Iou;
    var r := Survivors(s, threshold, j);
    if Hits(r, s[j], threshold) {
      var i :| 0 <= i < |r| && Iou(r[i].bbox, s[j].bbox) > threshold;
      SurvivorsAre(s, threshold, j, r[i]);
      var k: nat :| k < j && Kept(s, threshold, k) && s[k] == r[i];
      assert Overlaps(s, threshold, k, j);
    } else {
      forall k: nat | k < j && Kept(s, threshold, k) ensures !Overlaps(s, threshold, k, j) {
        SurvivorsAre(s, threshold, j, s[k]);
        var i :| 0 <= i < |r| && r[i] == s[k];
      }
    }
  }

  lemma {:induction false} SurvivorsContinue(s: seq<Detection>, threshold: real, n: nat)
    requires n <= |s|
    ensures Survivors(s, threshold, |s|) == Continue(Survivors(s, threshold, n), s[n..], threshold)
    decreases |s| - n
  {
    hide Iou;
    if n < |s| {
      SurvivorsContinue(s, threshold, n + 1);
      KeptMeansNoHit(s, threshold, n);
      assert s[n..][0] == s[n] && s[n..][1..] == s[n + 1..];
    }
  }

  lemma {:induction false} ClearTwice(s: seq<Detection>, kept: seq<Detection>, d: Detection, threshold: real)
    ensures Clear(ClearAll(s, kept, threshold), d, threshold) == ClearAll(s, kept + [d], threshold)
  {
    hide Iou;
    if s != [] {
      ClearTwice(s[1..], kept, d, threshold);
      var more := kept + [d];
      assert Hits(more, s[0], threshold) <==> Hits(kept, s[0], threshold) || Iou(d.bbox, s[0].bbox) > threshold by {
        assert more[|kept|] == d;
        if i :| 0 <= i < |kept| && Iou(kept[i].bbox, s[0].bbox) > threshold {
          assert more[i] == kept[i];
        }
      }
      if !Hits(kept, s[0], threshold) {
        assert ([s[0]] + ClearAll(s[1..], kept, threshold))[1..] == ClearAll(s[1..], kept, threshold);
      }
    }
  }

  lemma {:induction false} ContinueIsGreedy(kept: seq<Detection>, s: seq<Detection>, threshold: real)
    ensures Continue(kept, s, threshold) == kept + Greedy(ClearAll(s, kept, threshold), threshold)
    decreases |s|
  {
    hide Iou;
    if s != [] {
      if Hits(kept, s[0], threshold) {
        ContinueIsGreedy(kept, s[1..], threshold);
      } else {
        ContinueIsGreedy(kept + [s[0]], s[1..], threshold);
        ClearTwice(s[1..], kept, s[0], threshold);
        var rest := ClearAll(s[1..], kept, threshold);
        assert ([s[0]] + rest)[1..] == rest;
      }
    }
  }

  lemma {:induction false} ClearNothing(s: seq<Detection>, threshold: real)
    ensures ClearAll(s, [], threshold) == s
  {
    hide Iou;
    if s != [] {
      ClearNothing(s[1..], threshold);
    }
  }

  lemma SurvivorsAreGreedy(s: seq<Detection>, threshold: real)
    ensures Survivors(s, threshold, |s|) == Greedy(s, threshold)
  {
    hide Iou;
    SurvivorsContinue(s, threshold, 0);
    assert s[0..] == s;
    ContinueIsGreedy([], s, threshold);
    ClearNothing(s, threshold);
  }

  // ---- Idempotence, and agreement of the two sorts ----

  lemma {:induction false} SurvivorsAreSorted(s: seq<Detection>, threshold: real, n: nat)
    requires n <= |s| && Sorted(s)
    ensures var r := Survivors(s, threshold, n);
            && Sorted(r)
            && forall i, j | 0 <= i < j < |r| :: !Overlaps(r, threshold, i, j)
  {
    hide Iou;
    if n > 0 {
      SurvivorsAreSorted(s, threshold, n - 1);
      var r, front := Survivors(s, threshold, n), Survivors(s, threshold, n - 1);
      if Kept(s, threshold, n - 1) {
        forall i | 0 <= i < |front|
          ensures front[i].confidence >= s[n - 1].confidence && !(Iou(front[i].bbox, s[n - 1].bbox) > threshold)
        {
          SurvivorsAre(s, threshold, n - 1, front[i]);
          var k: nat :| k < n - 1 && Kept(s, threshold, k) && s[k] == front[i];
          assert !Overlaps(s, threshold, k, n - 1);
        }
        forall i, j | 0 <= i < j < |r| ensures !Overlaps(r, threshold, i, j) {
          if j < |front| {
            assert !Overlaps(front, threshold, i, j);
          }
        }
      }
    }
  }

  lemma {:induction false} AllSurvive(s: seq<Detection>, threshold: real, n: nat)
    requires n <= |s| && forall i, j | 0 <= i < j < |s| :: !Overlaps(s, threshold, i, j)
    ensures Survivors(s, threshold, n) == s[..n]
  {
    hide Iou;
    if n > 0 {
      AllSurvive(s, threshold, n - 1);
      assert Kept(s, threshold, n - 1);
    }
  }

  /** Suppressing twice is suppressing once. */
  lemma SuppressionIsIdempotent(detections: seq<Detection>, threshold: real)
    ensures Suppressed(Suppressed(detections, threshold), threshold) == Suppressed(detections, threshold)
  {
    hide Iou;
    var s := StableSort(detections);
    StableSortSorts(detections, 0.0);
    SurvivorsAreSorted(s, threshold, |s|);
    var r := Survivors(s, threshold, |s|);
    SortedIsFixed(r);
    AllSurvive(r, threshold, |r|);
    assert r[..|r|] == r;
  }

  /** With distinct confidences any sort gives the stable sort's order. */
  lemma SortsAgree(detections: seq<Detection>, sorted: seq<Detection>)
    requires Sorted(sorted) && multiset(sorted) == multiset(detections)
    requires DistinctConfidences(detections)
    ensures sorted == StableSort(detections)
  {
    StableSortSorts(detections, 0.0);
    var s := StableSort(detections);
    DistinctUpToOrder(detections, s);
    SortedIsUnique(s, sorted);
  }

  lemma DistinctUpToOrder(s: seq<Detection>, t: seq<Detection>)
    requires multiset(s) == multiset(t) && DistinctConfidences(s)
    ensures DistinctConfidences(t)
  {
    forall i, j | 0 <= i < j < |t| ensures t[i].confidence != t[j].confidence {
      if t[i].confidence == t[j].confidence {
        assert t[i] in multiset(s) && t[j] in multiset(s);
        var a :| 0 <= a < |s| && s[a] == t[i];
        var b :| 0 <= b < |s| && s[b] == t[j];
        assert a == b;
        TwiceInSequence(t, i, j);
        OnceInSequence(s, a);
      }
    }
  }

  lemma TwiceInSequence(t: seq<Detection>, i: nat, j: nat)
    requires i < j < |t| && t[i] == t[j]
    ensures multiset(t)[t[i]] >= 2
  {
    assert t == t[..i] + [t[i]] + t[i + 1..j] + [t[j]] + t[j + 1..];
  }

  lemma OnceInSequence(s: seq<Detection>, a: nat)
    requires a < |s| && DistinctConfidences(s)
    ensures multiset(s)[s[a]] == 1
  {
    assert s == s[..a] + [s[a]] + s[a + 1..];
    assert s[a] !in s[..a] && s[a] !in s[a + 1..];
  }

  /** The loop of both versions over a list that is already sorted. */
  method GreedyLoop(s: seq<Detection>, threshold: real) returns (keep: seq<Detection>)
    ensures keep == Survivors(s, threshold, |s|)
  {
    hide Iou;
    keep := [];
    var suppressed := new bool[|s|](_ => false);
    for i := 0 to |s|
      invariant keep == Survivors(s, threshold, i)
      invariant forall j | i <= j < |s| ::
                  suppressed[j] <==> exists k: nat :: k < i && Kept(s, threshold, k) && Overlaps(s, threshold, k, j)
    {
      if suppressed[i] {
        continue;
      }
      assert Kept(s, threshold, i);
      keep := keep + [s[i]];
      for j := i + 1 to |s|
        invariant forall k | i < k < |s| ::
                    suppressed[k] <==>
                    exists l: nat ::
                      (l < i || (l == i && k < j)) && Kept(s, threshold, l) && Overlaps(s, threshold, l, k)
      {
        if suppressed[j] {
          continue;
        }
        if Iou(s[i].bbox, s[j].bbox) > threshold {
          assert Overlaps(s, threshold, i, j);
          suppressed[j] := true;
        }
      }
    }
  }

  /** The Rust version: a stable sort, then the loop. */
  method NonMaxSuppression(detections: seq<Detection>, threshold: real) returns (kept: seq<Detection>)
    ensures kept == Suppressed(detections, threshold)
  {
    hide Iou;
    if detections == [] {
      return [];
    }
    kept := GreedyLoop(StableSort(detections), threshold);
  }

  /** The C++ version: its sort may return the entries in any sorted order. */
  method NonMaxSuppressionCpp(detections: seq<Detection>, sorted: seq<Detection>, threshold: real)
    returns (kept: seq<Detection>)
    requires Sorted(sorted) && multiset(sorted) == multiset(detections)
    ensures DistinctConfidences(detections) ==> kept == Suppressed(detections, threshold)
    ensures kept == Survivors(sorted, threshold, |sorted|)
  {
    hide Iou;
    if DistinctConfidences(detections) {
      SortsAgree(detections, sorted);
    }
    kept := GreedyLoop(sorted, threshold);
  }
}
