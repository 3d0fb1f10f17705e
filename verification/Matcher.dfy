/** The greedy list matcher of the execution grader: `dedupe_strings` and `match_lists`. */
module Matcher {

  /** `normalize_text`, `str.strip` and `similarity`, which the matcher only calls. A ratio lies in [0, 1]. */
  type Ratio = f: (string, string) -> real | forall a, b :: 0.0 <= f(a, b) <= 1.0 witness (a, b) => 0.0

  datatype Grader = Grader(normalize: string -> string, strip: string -> string, similarity: Ratio)

  datatype Match = Match(expected: string, predicted: string, score: real)

  datatype Report = Report(expected: seq<string>, predicted: seq<string>, matches: seq<Match>,
                           missed: seq<string>, unexpected: seq<string>,
                           precision: real, recall: real, f1: real)

  // ---------------------------------------------------------------- dedupe

  function Key(g: Grader, values: seq<string>, v: nat): string
    requires v < |values|
  {
    g.normalize(values[v])
  }

  ghost predicate IncreasingFreshKeys(g: Grader, values: seq<string>, n: nat, kept: seq<nat>)
    requires n <= |values|
  {
    && (forall i :: 0 <= i < |kept| ==> kept[i] < n && Key(g, values, kept[i]) != "")
    && (forall i, j :: 0 <= i < j < |kept| ==> kept[i] < kept[j] && Key(g, values, kept[i]) != Key(g, values, kept[j]))
  }

  ghost predicate EveryKeyKept(g: Grader, values: seq<string>, n: nat, kept: seq<nat>)
    requires n <= |values|
  {
    forall v :: 0 <= v < n && Key(g, values, v) != "" ==> KeyKept(g, values, kept, v)
  }

  /** `kept` are the positions, among the first `n`, of the first value of each non-empty key, in order. */
  ghost predicate KeepsFirsts(g: Grader, values: seq<string>, n: nat, kept: seq<nat>)
    requires n <= |values|
  {
    IncreasingFreshKeys(g, values, n, kept) && EveryKeyKept(g, values, n, kept)
  }

  /** The key of `values[v]` is that of a kept position not after `v`. */
  ghost predicate KeyKept(g: Grader, values: seq<string>, kept: seq<nat>, v: nat)
    requires v < |values|
  {
    exists i :: 0 <= i < |kept| && kept[i] <= v && kept[i] < |values| && Key(g, values, kept[i]) == Key(g, values, v)
  }

  lemma KeyKeptGrows(g: Grader, values: seq<string>, kept: seq<nat>, v: nat, k: nat)
    requires v < |values| && KeyKept(g, values, kept, v)
    ensures KeyKept(g, values, kept + [k], v)
  {
    var i :| 0 <= i < |kept| && kept[i] <= v && kept[i] < |values| && Key(g, values, kept[i]) == Key(g, values, v);
    assert (kept + [k])[i] == kept[i];
  }

  lemma FreshKeysAdd(g: Grader, values: seq<string>, n: nat, kept: seq<nat>)
    requires n < |values| && IncreasingFreshKeys(g, values, n, kept) && Key(g, values, n) != ""
    requires forall i :: 0 <= i < |kept| ==> Key(g, values, kept[i]) != Key(g, values, n)
    ensures IncreasingFreshKeys(g, values, n + 1, kept + [n])
  {
  }

  lemma KeepsFirstsAdd(g: Grader, values: seq<string>, n: nat, kept: seq<nat>)
    requires n < |values| && KeepsFirsts(g, values, n, kept) && Key(g, values, n) != ""
    requires forall i :: 0 <= i < |kept| ==> Key(g, values, kept[i]) != Key(g, values, n)
    ensures KeepsFirsts(g, values, n + 1, kept + [n])
  {
    FreshKeysAdd(g, values, n, kept);
    forall v | 0 <= v < n + 1 && Key(g, values, v) != "" ensures KeyKept(g, values, kept + [n], v) {
      if v < n {
        KeyKeptGrows(g, values, kept, v, n);
      } else {
        assert (kept + [n])[|kept|] == n;
      }
    }
  }

  lemma KeepsFirstsSkip(g: Grader, values: seq<string>, n: nat, kept: seq<nat>)
    requires n < |values| && KeepsFirsts(g, values, n, kept)
    requires Key(g, values, n) == "" || KeyKept(g, values, kept, n)
    ensures KeepsFirsts(g, values, n + 1, kept)
  {
  }

  /** The kept values, stripped. */
  ghost predicate Stripped(g: Grader, values: seq<string>, kept: seq<nat>, output: seq<string>) {
    |output| == |kept| && forall i :: 0 <= i < |kept| ==> kept[i] < |values| && output[i] == g.strip(values[kept[i]])
  }

  /** `seen` holds the keys of the kept values. */
  ghost predicate SeenKeys(g: Grader, values: seq<string>, kept: seq<nat>, seen: set<string>) {
    && (forall i :: 0 <= i < |kept| ==> kept[i] < |values| && Key(g, values, kept[i]) in seen)
    && (forall key | key in seen :: exists i :: 0 <= i < |kept| && kept[i] < |values| && Key(g, values, kept[i]) == key)
  }

  lemma SeenAdd(g: Grader, values: seq<string>, kept: seq<nat>, seen: set<string>, output: seq<string>, v: nat)
    requires v < |values| && SeenKeys(g, values, kept, seen) && Stripped(g, values, kept, output)
    ensures SeenKeys(g, values, kept + [v], seen + {Key(g, values, v)})
    ensures Stripped(g, values, kept + [v], output + [g.strip(values[v])])
  {
    var kept' := kept + [v];
    forall key | key in seen + {Key(g, values, v)}
      ensures exists i :: 0 <= i < |kept'| && kept'[i] < |values| && Key(g, values, kept'[i]) == key
    {
      if key in seen {
        var i :| 0 <= i < |kept| && kept[i] < |values| && Key(g, values, kept[i]) == key;
        assert kept'[i] == kept[i];
      } else {
        assert kept'[|kept|] == v;
      }
    }
  }

  lemma SeenMeans(g: Grader, values: seq<string>, kept: seq<nat>, seen: set<string>, v: nat)
    requires v < |values| && KeepsFirsts(g, values, v, kept) && SeenKeys(g, values, kept, seen)
    ensures Key(g, values, v) in seen ==> KeyKept(g, values, kept, v)
    ensures Key(g, values, v) !in seen ==> forall i :: 0 <= i < |kept| ==> Key(g, values, kept[i]) != Key(g, values, v)
  {
  }

  /** One value of the loop: skipped if its key is empty or seen, kept otherwise. */
  lemma DedupeStep(g: Grader, values: seq<string>, kept: seq<nat>, seen: set<string>, output: seq<string>, v: nat)
    requires v < |values| && KeepsFirsts(g, values, v, kept)
    requires SeenKeys(g, values, kept, seen) && Stripped(g, values, kept, output)
    ensures var key := Key(g, values, v);
            if key == "" || key in seen then KeepsFirsts(g, values, v + 1, kept)
            else
              && KeepsFirsts(g, values, v + 1, kept + [v])
              && SeenKeys(g, values, kept + [v], seen + {key})
              && Stripped(g, values, kept + [v], output + [g.strip(values[v])])
  {
    SeenMeans(g, values, kept, seen, v);
    if Key(g, values, v) == "" || Key(g, values, v) in seen {
      KeepsFirstsSkip(g, values, v, kept);
    } else {
      KeepsFirstsAdd(g, values, v, kept);
      SeenAdd(g, values, kept, seen, output, v);
    }
  }

  /** The stripped first values of each non-empty key, in order. */
  ghost predicate IsDedupe(g: Grader, values: seq<string>, output: seq<string>) {
    exists kept :: KeepsFirsts(g, values, |values|, kept) && Stripped(g, values, kept, output)
  }

  method DedupeStrings(g: Grader, values: seq<string>) returns (output: seq<string>)
    ensures IsDedupe(g, values, output)
  {
    output := [];
    ghost var kept: seq<nat> := [];
    var seen: set<string> := {};
    for v := 0 to |values|
      invariant KeepsFirsts(g, values, v, kept)
      invariant Stripped(g, values, kept, output) && SeenKeys(g, values, kept, seen)
    {
      var key := g.normalize(values[v]);
      DedupeStep(g, values, kept, seen, output, v);
      if key != "" && key !in seen {
        seen := seen + {key};
        output := output + [g.strip(values[v])];
        kept := kept + [v];
      }
    }
  }

  // ---------------------------------------------------------------- scores

  function Precision(m: nat, p: nat, e: nat): real {
    if p != 0 then m as real / p as real else if e == 0 then 1.0 else 0.0
  }

  function Recall(m: nat, p: nat, e: nat): real {
    if e != 0 then m as real / e as real else if p == 0 then 1.0 else 0.0
  }

  function F1(precision: real, recall: real): real {
    if precision + recall == 0.0 then 0.0 else 2.0 * precision * recall / (precision + recall)
  }

  /** Over exact numbers the F1 score is 2m / (p + e), and 1 when both lists are empty. */
  lemma F1ClosedForm(m: nat, p: nat, e: nat)
    requires m <= p && m <= e
    ensures F1(Precision(m, p, e), Recall(m, p, e))
         == if p + e == 0 then 1.0 else 2.0 * m as real / (p + e) as real
  {
  }

  /** Precision is the share of the predictions, recall the share of the expected values. */
  lemma SharesMean(m: nat, p: nat, e: nat)
    ensures if p != 0 then Precision(m, p, e) * p as real == m as real else Precision(m, p, e) == if e == 0 then 1.0 else 0.0
    ensures if e != 0 then Recall(m, p, e) * e as real == m as real else Recall(m, p, e) == if p == 0 then 1.0 else 0.0
  {
  }

  // ---------------------------------------------------------------- matchings

  /** A one-to-one pairing of positions whose pairs all reach the threshold. */
  ghost predicate ThresholdMatching(g: Grader, expected: seq<string>, predicted: seq<string>, threshold: real, pairs: set<(nat, nat)>) {
    && (forall x | x in pairs ::
          x.0 < |expected| && x.1 < |predicted| && g.similarity(expected[x.0], predicted[x.1]) >= threshold)
    && (forall x, y | x in pairs && y in pairs && x != y :: x.0 != y.0 && x.1 != y.1)
  }

  /** No pair of free positions reaches the threshold. */
  ghost predicate Maximal(g: Grader, expected: seq<string>, predicted: seq<string>, threshold: real,
                          usedE: set<nat>, usedP: set<nat>) {
    forall i, j :: 0 <= i < |expected| && 0 <= j < |predicted| && i !in usedE && j !in usedP ==>
      g.similarity(expected[i], predicted[j]) < threshold
  }

  lemma {:induction false} OnePerPosition(pairs: set<(nat, nat)>, used: set<nat>, left: bool)
    requires forall x | x in pairs :: (if left then x.0 else x.1) in used
    requires forall x, y | x in pairs && y in pairs && x != y :: x.0 != y.0 && x.1 != y.1
    ensures |pairs| <= |used|
    decreases |pairs|
  {
    if pairs != {} {
      var x :| x in pairs;
      var k := if left then x.0 else x.1;
      OnePerPosition(pairs - {x}, used - {k}, left);
    }
  }

  /** A maximal matching is at least half as large as any other. */
  lemma MaximalIsHalfOptimal(g: Grader, expected: seq<string>, predicted: seq<string>, threshold: real,
                             usedE: set<nat>, usedP: set<nat>, pairs: set<(nat, nat)>)
    requires Maximal(g, expected, predicted, threshold, usedE, usedP)
    requires ThresholdMatching(g, expected, predicted, threshold, pairs)
    ensures |pairs| <= |usedE| + |usedP|
  {
    var a := set x | x in pairs && x.0 in usedE;
    var b := set x | x in pairs && x.1 in usedP;
    OnePerPosition(a, usedE, true);
    OnePerPosition(b, usedP, false);
    forall x | x in pairs ensures x in a || x in b {
      assert g.similarity(expected[x.0], predicted[x.1]) >= threshold;
    }
    assert pairs == a + b;
    UnionSize(a, b);
  }

  lemma {:induction false} UnionSize<T>(a: set<T>, b: set<T>)
    ensures |a + b| <= |a| + |b|
    decreases |b|
  {
  }

  // ---------------------------------------------------------------- the greedy loop

  /** Inner loop: the first position with the best score. */
  method FindBest(g: Grader, item: string, remaining: seq<string>) returns (index: int, score: real)
    ensures index == -1 <==> remaining == []
    ensures index != -1 ==>
              && 0 <= index < |remaining| && score == g.similarity(item, remaining[index])
              && (forall j :: 0 <= j < |remaining| ==> g.similarity(item, remaining[j]) <= score)
              && (forall j :: 0 <= j < index ==> g.similarity(item, remaining[j]) < score)
  {
    index, score := -1, -1.0;
    for k := 0 to |remaining|
      invariant index == -1 <==> k == 0
      invariant index == -1 ==> score == -1.0
      invariant index != -1 ==>
                  && 0 <= index < k && score == g.similarity(item, remaining[index])
                  && (forall j :: 0 <= j < k ==> g.similarity(item, remaining[j]) <= score)
                  && (forall j :: 0 <= j < index ==> g.similarity(item, remaining[j]) < score)
    {
      var s := g.similarity(item, remaining[k]);
      assert 0.0 <= s;
      if s > score {
        index, score := k, s;
      }
    }
  }

  function Remove<T>(s: seq<T>, i: nat): seq<T>
    requires i < |s|
  {
    s[..i] + s[i + 1..]
  }

  lemma RemoveCounts<T>(s: seq<T>, i: nat)
    requires i < |s|
    ensures multiset(s) == multiset(Remove(s, i)) + multiset{s[i]}
  {
    assert s == s[..i] + [s[i]] + s[i + 1..];
  }

  function ExpectedOf(matches: seq<Match>): seq<string> {
    seq(|matches|, i requires 0 <= i < |matches| => matches[i].expected)
  }

  function PredictedOf(matches: seq<Match>): seq<string> {
    seq(|matches|, i requires 0 <= i < |matches| => matches[i].predicted)
  }

  lemma MatchesSnoc(matches: seq<Match>, m: Match)
    ensures ExpectedOf(matches + [m]) == ExpectedOf(matches) + [m.expected]
    ensures PredictedOf(matches + [m]) == PredictedOf(matches) + [m.predicted]
  {
  }

  /** The remaining predictions, with `idx` their original positions: all those not used. */
  ghost predicate Tracks(predicted: seq<string>, remaining: seq<string>, idx: seq<nat>, usedP: set<nat>) {
    && |idx| == |remaining|
    && (forall k :: 0 <= k < |idx| ==> idx[k] < |predicted| && idx[k] !in usedP && remaining[k] == predicted[idx[k]])
    && (forall a, b :: 0 <= a < b < |idx| ==> idx[a] != idx[b])
    && (forall j :: 0 <= j < |predicted| && j !in usedP ==> j in idx)
  }

  lemma TracksRemove(predicted: seq<string>, remaining: seq<string>, idx: seq<nat>, usedP: set<nat>, i: nat)
    requires Tracks(predicted, remaining, idx, usedP) && i < |remaining|
    ensures Tracks(predicted, Remove(remaining, i), Remove(idx, i), usedP + {idx[i]})
  {
  }

  /** Each match took the best prediction among those left at its turn: the ones matched later and the rest. */
  ghost predicate Greediest(g: Grader, matches: seq<Match>, rest: seq<string>) {
    && (forall k, l :: 0 <= k < l < |matches| ==> g.similarity(matches[k].expected, matches[l].predicted) <= matches[k].score)
    && (forall k, p :: 0 <= k < |matches| && p in rest ==> g.similarity(matches[k].expected, p) <= matches[k].score)
  }

  lemma GreediestHit(g: Grader, matches: seq<Match>, rest: seq<string>, best: nat, m: Match)
    requires Greediest(g, matches, rest) && best < |rest| && m.predicted == rest[best]
    requires forall p | p in rest :: g.similarity(m.expected, p) <= m.score
    ensures Greediest(g, matches + [m], Remove(rest, best))
  {
    assert rest[best] in rest && forall p | p in Remove(rest, best) :: p in rest;
  }

  /** What the outer loop has established about the first `done` expected values. */
  ghost predicate GreedySoFar(g: Grader, expected: seq<string>, predicted: seq<string>, threshold: real, done: nat,
                              remaining: seq<string>, matches: seq<Match>, missed: seq<string>,
                              usedE: set<nat>, usedP: set<nat>)
    requires done <= |expected|
  {
    && |usedE| == |matches| == |usedP| && (forall i | i in usedE :: i < done)
    && multiset(expected[..done]) == multiset(ExpectedOf(matches)) + multiset(missed)
    && multiset(predicted) == multiset(PredictedOf(matches)) + multiset(remaining)
    && (forall k :: 0 <= k < |matches| ==>
          matches[k].score == g.similarity(matches[k].expected, matches[k].predicted) && matches[k].score >= threshold)
    && Greediest(g, matches, remaining)
    && (forall m, p | m in missed && p in remaining :: g.similarity(m, p) < threshold)
    && (forall i, j :: 0 <= i < done && 0 <= j < |predicted| && i !in usedE && j !in usedP ==>
          g.similarity(expected[i], predicted[j]) < threshold)
  }

  lemma GreedyHit(g: Grader, expected: seq<string>, predicted: seq<string>, threshold: real, done: nat,
                  remaining: seq<string>, matches: seq<Match>, missed: seq<string>,
                  usedE: set<nat>, usedP: set<nat>, idx: seq<nat>, best: nat)
    requires done < |expected| && Tracks(predicted, remaining, idx, usedP) && best < |remaining|
    requires GreedySoFar(g, expected, predicted, threshold, done, remaining, matches, missed, usedE, usedP)
    requires g.similarity(expected[done], remaining[best]) >= threshold
    requires forall k :: 0 <= k < |remaining| ==> g.similarity(expected[done], remaining[k]) <= g.similarity(expected[done], remaining[best])
    ensures var m := Match(expected[done], remaining[best], g.similarity(expected[done], remaining[best]));
            GreedySoFar(g, expected, predicted, threshold, done + 1, Remove(remaining, best), matches + [m], missed,
                        usedE + {done}, usedP + {idx[best]})
  {
    var m := Match(expected[done], remaining[best], g.similarity(expected[done], remaining[best]));
    HitCounts(expected, predicted, done, remaining, matches, missed, best, m);
    GreediestHit(g, matches, remaining, best, m);
    forall x, p | x in missed && p in Remove(remaining, best) ensures g.similarity(x, p) < threshold {
      assert p in remaining;
    }
  }

  lemma HitCounts(expected: seq<string>, predicted: seq<string>, done: nat,
                  remaining: seq<string>, matches: seq<Match>, missed: seq<string>, best: nat, m: Match)
    requires done < |expected| && best < |remaining| && m.expected == expected[done] && m.predicted == remaining[best]
    requires multiset(expected[..done]) == multiset(ExpectedOf(matches)) + multiset(missed)
    requires multiset(predicted) == multiset(PredictedOf(matches)) + multiset(remaining)
    ensures multiset(expected[..done + 1]) == multiset(ExpectedOf(matches + [m])) + multiset(missed)
    ensures multiset(predicted) == multiset(PredictedOf(matches + [m])) + multiset(Remove(remaining, best))
  {
    MatchesSnoc(matches, m);
    RemoveCounts(remaining, best);
    assert expected[..done + 1] == expected[..done] + [expected[done]];
  }

  lemma GreedyMiss(g: Grader, expected: seq<string>, predicted: seq<string>, threshold: real, done: nat,
                   remaining: seq<string>, matches: seq<Match>, missed: seq<string>,
                   usedE: set<nat>, usedP: set<nat>, idx: seq<nat>)
    requires done < |expected| && Tracks(predicted, remaining, idx, usedP)
    requires GreedySoFar(g, expected, predicted, threshold, done, remaining, matches, missed, usedE, usedP)
    requires forall k :: 0 <= k < |remaining| ==> g.similarity(expected[done], remaining[k]) < threshold
    ensures GreedySoFar(g, expected, predicted, threshold, done + 1, remaining, matches, missed + [expected[done]], usedE, usedP)
  {
    assert expected[..done + 1] == expected[..done] + [expected[done]];
    forall j | 0 <= j < |predicted| && j !in usedP ensures g.similarity(expected[done], predicted[j]) < threshold {
      var k :| 0 <= k < |idx| && idx[k] == j;
      assert remaining[k] == predicted[j];
    }
  }

  // ---------------------------------------------------------------- which positions are matched

  /** One of the first `k` hits took the predicted position `j`. */
  ghost predicate Taken(hits: seq<(nat, nat)>, k: nat, j: nat) {
    exists l :: 0 <= l < k && l < |hits| && hits[l].1 == j
  }

  /** Hit `k` reaches the threshold and is the first best of the positions not taken before it. */
  ghost predicate FirstBest(g: Grader, ev: seq<string>, pv: seq<string>, threshold: real, hits: seq<(nat, nat)>, k: nat)
    requires k < |hits| && hits[k].0 < |ev| && hits[k].1 < |pv|
  {
    var e, score := ev[hits[k].0], g.similarity(ev[hits[k].0], pv[hits[k].1]);
    && score >= threshold && !Taken(hits, k, hits[k].1)
    && forall j :: 0 <= j < |pv| && !Taken(hits, k, j) ==>
         if j < hits[k].1 then g.similarity(e, pv[j]) < score else g.similarity(e, pv[j]) <= score
  }

  /** No predicted position left by the hits of earlier expected values reaches the threshold for the one at `i`. */
  ghost predicate NothingLeft(g: Grader, ev: seq<string>, pv: seq<string>, threshold: real, hits: seq<(nat, nat)>, i: nat)
    requires i < |ev|
  {
    forall j :: 0 <= j < |pv| && (forall l :: 0 <= l < |hits| && hits[l].0 < i ==> hits[l].1 != j) ==>
      g.similarity(ev[i], pv[j]) < threshold
  }

  ghost predicate Increasing(s: seq<nat>, bound: nat) {
    && (forall k :: 0 <= k < |s| ==> s[k] < bound)
    && (forall k, l :: 0 <= k < l < |s| ==> s[k] < s[l])
  }

  ghost predicate HitsInOrder(hits: seq<(nat, nat)>, done: nat, size: nat) {
    && (forall k :: 0 <= k < |hits| ==> hits[k].0 < done && hits[k].1 < size)
    && (forall k, l :: 0 <= k < l < |hits| ==> hits[k].0 < hits[l].0)
  }

  ghost predicate HitAt(hits: seq<(nat, nat)>, i: nat) {
    exists k :: 0 <= k < |hits| && hits[k].0 == i
  }

  /** The greedy choice, position by position: it leaves no freedom. */
  ghost predicate Trace(g: Grader, ev: seq<string>, pv: seq<string>, threshold: real, done: nat,
                        hits: seq<(nat, nat)>, misses: seq<nat>, idx: seq<nat>)
    requires done <= |ev|
  {
    && HitsInOrder(hits, done, |pv|) && Increasing(misses, done) && Increasing(idx, |pv|)
    && (forall i: nat :: i < done ==> (i in misses <==> !HitAt(hits, i)))
    && (forall j: nat :: j < |pv| ==> (j in idx <==> !Taken(hits, |hits|, j)))
    && (forall k :: 0 <= k < |hits| ==> FirstBest(g, ev, pv, threshold, hits, k))
    && (forall i | i in misses :: NothingLeft(g, ev, pv, threshold, hits, i))
  }

  /** The three lists of the report, read off the positions. */
  ghost predicate Renders(g: Grader, ev: seq<string>, pv: seq<string>, hits: seq<(nat, nat)>, misses: seq<nat>, idx: seq<nat>,
                          matches: seq<Match>, missed: seq<string>, remaining: seq<string>)
    requires HitsInOrder(hits, |ev|, |pv|) && Increasing(misses, |ev|) && Increasing(idx, |pv|)
  {
    && |matches| == |hits| && |missed| == |misses| && |remaining| == |idx|
    && (forall k :: 0 <= k < |hits| ==>
          matches[k] == Match(ev[hits[k].0], pv[hits[k].1], g.similarity(ev[hits[k].0], pv[hits[k].1])))
    && (forall k :: 0 <= k < |misses| ==> missed[k] == ev[misses[k]])
    && (forall k :: 0 <= k < |idx| ==> remaining[k] == pv[idx[k]])
  }

  lemma TakenSnoc(hits: seq<(nat, nat)>, h: (nat, nat), k: nat, j: nat)
    ensures k <= |hits| ==> (Taken(hits + [h], k, j) <==> Taken(hits, k, j))
    ensures Taken(hits + [h], |hits| + 1, j) <==> Taken(hits, |hits|, j) || h.1 == j
  {
    var more := hits + [h];
    assert forall l :: 0 <= l < |hits| ==> more[l] == hits[l];
    assert more[|hits|] == h;
  }

  lemma FirstBestSnoc(g: Grader, ev: seq<string>, pv: seq<string>, threshold: real, hits: seq<(nat, nat)>, h: (nat, nat), k: nat)
    requires k < |hits| && hits[k].0 < |ev| && hits[k].1 < |pv| && FirstBest(g, ev, pv, threshold, hits, k)
    ensures FirstBest(g, ev, pv, threshold, hits + [h], k)
  {
    assert (hits + [h])[k] == hits[k];
    forall j: nat ensures Taken(hits + [h], k, j) <==> Taken(hits, k, j) {
      TakenSnoc(hits, h, k, j);
    }
  }

  lemma NothingLeftSnoc(g: Grader, ev: seq<string>, pv: seq<string>, threshold: real, hits: seq<(nat, nat)>, h: (nat, nat), i: nat)
    requires i < |ev| && NothingLeft(g, ev, pv, threshold, hits, i) && i <= h.0
    ensures NothingLeft(g, ev, pv, threshold, hits + [h], i)
  {
    var more := hits + [h];
    assert forall l :: 0 <= l < |hits| ==> more[l] == hits[l];
  }

  lemma IncreasingRemove(idx: seq<nat>, bound: nat, best: nat)
    requires Increasing(idx, bound) && best < |idx|
    ensures Increasing(Remove(idx, best), bound)
    ensures forall j :: j in Remove(idx, best) <==> j in idx && j != idx[best]
  {
    forall j | j in idx && j != idx[best] ensures j in Remove(idx, best) {
      var k :| 0 <= k < |idx| && idx[k] == j;
      assert Remove(idx, best)[if k < best then k else k - 1] == j;
    }
  }

  lemma FirstBestHit(g: Grader, ev: seq<string>, pv: seq<string>, threshold: real, done: nat,
                     hits: seq<(nat, nat)>, misses: seq<nat>, idx: seq<nat>, best: nat)
    requires done < |ev| && Trace(g, ev, pv, threshold, done, hits, misses, idx) && best < |idx|
    requires g.similarity(ev[done], pv[idx[best]]) >= threshold
    requires forall k :: 0 <= k < |idx| ==> g.similarity(ev[done], pv[idx[k]]) <= g.similarity(ev[done], pv[idx[best]])
    requires forall k :: 0 <= k < best ==> g.similarity(ev[done], pv[idx[k]]) < g.similarity(ev[done], pv[idx[best]])
    ensures FirstBest(g, ev, pv, threshold, hits + [(done, idx[best])], |hits|)
  {
    var h := (done, idx[best]);
    var more := hits + [h];
    assert more[|hits|] == h;
    forall j: nat ensures Taken(more, |hits|, j) <==> Taken(hits, |hits|, j) {
      TakenSnoc(hits, h, |hits|, j);
    }
    assert idx[best] in idx;
    forall j | 0 <= j < |pv| && !Taken(more, |hits|, j)
      ensures if j < h.1 then g.similarity(ev[done], pv[j]) < g.similarity(ev[done], pv[h.1])
              else g.similarity(ev[done], pv[j]) <= g.similarity(ev[done], pv[h.1])
    {
      assert j in idx;
      var k :| 0 <= k < |idx| && idx[k] == j;
    }
  }

  lemma TraceHit(g: Grader, ev: seq<string>, pv: seq<string>, threshold: real, done: nat,
                 hits: seq<(nat, nat)>, misses: seq<nat>, idx: seq<nat>, best: nat)
    requires done < |ev| && Trace(g, ev, pv, threshold, done, hits, misses, idx) && best < |idx|
    requires FirstBest(g, ev, pv, threshold, hits + [(done, idx[best])], |hits|)
    ensures Trace(g, ev, pv, threshold, done + 1, hits + [(done, idx[best])], misses, Remove(idx, best))
  {
    var h := (done, idx[best]);
    var more := hits + [h];
    assert forall k :: 0 <= k < |hits| ==> more[k] == hits[k];
    assert more[|hits|] == h;
    IncreasingRemove(idx, |pv|, best);
    forall j: nat | j < |pv| ensures j in Remove(idx, best) <==> !Taken(more, |more|, j) {
      TakenSnoc(hits, h, |hits|, j);
    }
    forall i: nat | i < done + 1 ensures i in misses <==> !HitAt(more, i) {
      HitAtSnoc(hits, h, i);
    }
    forall k | 0 <= k < |more| ensures FirstBest(g, ev, pv, threshold, more, k) {
      if k < |hits| {
        FirstBestSnoc(g, ev, pv, threshold, hits, h, k);
      }
    }
    forall i | i in misses ensures NothingLeft(g, ev, pv, threshold, more, i) {
      NothingLeftSnoc(g, ev, pv, threshold, hits, h, i);
    }
  }

  lemma HitAtSnoc(hits: seq<(nat, nat)>, h: (nat, nat), i: nat)
    ensures HitAt(hits + [h], i) <==> HitAt(hits, i) || h.0 == i
  {
    var more := hits + [h];
    assert forall k :: 0 <= k < |hits| ==> more[k] == hits[k];
    assert more[|hits|] == h;
  }

  lemma TraceMiss(g: Grader, ev: seq<string>, pv: seq<string>, threshold: real, done: nat,
                  hits: seq<(nat, nat)>, misses: seq<nat>, idx: seq<nat>)
    requires done < |ev| && Trace(g, ev, pv, threshold, done, hits, misses, idx)
    requires forall k :: 0 <= k < |idx| ==> g.similarity(ev[done], pv[idx[k]]) < threshold
    ensures Trace(g, ev, pv, threshold, done + 1, hits, misses + [done], idx)
  {
    forall j | 0 <= j < |pv| && (forall l :: 0 <= l < |hits| && hits[l].0 < done ==> hits[l].1 != j)
      ensures g.similarity(ev[done], pv[j]) < threshold
    {
      assert !Taken(hits, |hits|, j) && j in idx;
      var k :| 0 <= k < |idx| && idx[k] == j;
    }
    assert NothingLeft(g, ev, pv, threshold, hits, done);
    assert forall i: nat :: i in misses + [done] <==> i in misses || i == done;
  }

  lemma CountsFit(ev: seq<string>, pv: seq<string>, matches: seq<Match>, missed: seq<string>, unexpected: seq<string>)
    requires multiset(pv) == multiset(PredictedOf(matches)) + multiset(unexpected)
    requires multiset(ev) == multiset(ExpectedOf(matches)) + multiset(missed)
    ensures |matches| + |unexpected| == |pv| && |matches| + |missed| == |ev|
  {
    assert |multiset(pv)| == |matches| + |unexpected| && |multiset(ev)| == |matches| + |missed|;
  }

  method MatchLists(g: Grader, expected: seq<string>, predicted: seq<string>, threshold: real) returns (r: Report)
    // the lists compared
    ensures IsDedupe(g, expected, r.expected) && IsDedupe(g, predicted, r.predicted)
    // conservation
    ensures multiset(r.predicted) == multiset(PredictedOf(r.matches)) + multiset(r.unexpected)
    ensures multiset(r.expected) == multiset(ExpectedOf(r.matches)) + multiset(r.missed)
    // soundness and maximality
    ensures forall k :: 0 <= k < |r.matches| ==>
              r.matches[k].score == g.similarity(r.matches[k].expected, r.matches[k].predicted) >= threshold
    ensures forall m, p | m in r.missed && p in r.unexpected :: g.similarity(m, p) < threshold
    ensures Greediest(g, r.matches, r.unexpected)
    // the choice itself, position by position
    ensures exists hits, misses, rest ::
              && Trace(g, r.expected, r.predicted, threshold, |r.expected|, hits, misses, rest)
              && Renders(g, r.expected, r.predicted, hits, misses, rest, r.matches, r.missed, r.unexpected)
    // at least half of the best possible
    ensures forall pairs :: ThresholdMatching(g, r.expected, r.predicted, threshold, pairs) ==> |pairs| <= 2 * |r.matches|
    // the scores
    ensures PrecisionOk(r) && RecallOk(r) && F1Ok(r)
  {
    var ev := DedupeStrings(g, expected);
    var pv := DedupeStrings(g, predicted);
    ghost var hits, misses, rest;
    var matches, missed, unexpected;
    matches, missed, unexpected, hits, misses, rest := Greedy(g, ev, pv, threshold);
    CountsFit(ev, pv, matches, missed, unexpected);
    r := Score(ev, pv, matches, missed, unexpected);
  }

  /** Precision is the share of the predictions that match. */
  ghost predicate PrecisionOk(r: Report) {
    if r.predicted != [] then r.precision * |r.predicted| as real == |r.matches| as real
    else r.precision == if r.expected == [] then 1.0 else 0.0
  }

  /** Recall is the share of the expected values that match. */
  ghost predicate RecallOk(r: Report) {
    if r.expected != [] then r.recall * |r.expected| as real == |r.matches| as real
    else r.recall == if r.predicted == [] then 1.0 else 0.0
  }

  /** F1 is twice the matches over the lengths of both lists. */
  ghost predicate F1Ok(r: Report) {
    r.f1 == if |r.predicted| + |r.expected| == 0 then 1.0
            else 2.0 * |r.matches| as real / (|r.predicted| + |r.expected|) as real
  }

  method Score(ev: seq<string>, pv: seq<string>, matches: seq<Match>, missed: seq<string>, unexpected: seq<string>)
    returns (r: Report)
    requires |matches| <= |ev| && |matches| <= |pv|
    ensures r.expected == ev && r.predicted == pv && r.matches == matches && r.missed == missed && r.unexpected == unexpected
    ensures PrecisionOk(r) && RecallOk(r) && F1Ok(r)
  {
    var m, p, e := |matches|, |pv|, |ev|;
    F1ClosedForm(m, p, e);
    SharesMean(m, p, e);
    var precision, recall := Precision(m, p, e), Recall(m, p, e);
    r := Report(ev, pv, matches, missed, unexpected, precision, recall, F1(precision, recall));
  }

  method Greedy(g: Grader, ev: seq<string>, pv: seq<string>, threshold: real)
    returns (matches: seq<Match>, missed: seq<string>, unexpected: seq<string>,
             ghost hits: seq<(nat, nat)>, ghost misses: seq<nat>, ghost idx: seq<nat>)
    ensures Trace(g, ev, pv, threshold, |ev|, hits, misses, idx)
    ensures Renders(g, ev, pv, hits, misses, idx, matches, missed, unexpected)
    ensures multiset(pv) == multiset(PredictedOf(matches)) + multiset(unexpected)
    ensures multiset(ev) == multiset(ExpectedOf(matches)) + multiset(missed)
    ensures forall k :: 0 <= k < |matches| ==>
              matches[k].score == g.similarity(matches[k].expected, matches[k].predicted) >= threshold
    ensures forall m, p | m in missed && p in unexpected :: g.similarity(m, p) < threshold
    ensures Greediest(g, matches, unexpected)
    ensures forall pairs :: ThresholdMatching(g, ev, pv, threshold, pairs) ==> |pairs| <= 2 * |matches|
  {
    var remaining := pv;
    matches, missed := [], [];
    ghost var usedE: set<nat>, usedP: set<nat> := {}, {};
    hits, misses := [], [];
    idx := GreedyStart(g, ev, pv, threshold);
    for done := 0 to |ev|
      invariant Tracks(pv, remaining, idx, usedP)
      invariant GreedySoFar(g, ev, pv, threshold, done, remaining, matches, missed, usedE, usedP)
      invariant Trace(g, ev, pv, threshold, done, hits, misses, idx)
      invariant Renders(g, ev, pv, hits, misses, idx, matches, missed, remaining)
    {
      remaining, matches, missed, usedE, usedP, hits, misses, idx :=
        MatchOne(g, ev, pv, threshold, done, remaining, matches, missed, usedE, usedP, hits, misses, idx);
    }
    unexpected := remaining;
    GreedyEnd(g, ev, pv, threshold, remaining, matches, missed, usedE, usedP);
  }

  /** Body of the outer loop, for the expected value at `done`. */
  method MatchOne(g: Grader, ev: seq<string>, pv: seq<string>, threshold: real, done: nat,
                  remaining0: seq<string>, matches0: seq<Match>, missed0: seq<string>,
                  ghost usedE0: set<nat>, ghost usedP0: set<nat>,
                  ghost hits0: seq<(nat, nat)>, ghost misses0: seq<nat>, ghost idx0: seq<nat>)
    returns (remaining: seq<string>, matches: seq<Match>, missed: seq<string>,
             ghost usedE: set<nat>, ghost usedP: set<nat>,
             ghost hits: seq<(nat, nat)>, ghost misses: seq<nat>, ghost idx: seq<nat>)
    requires done < |ev| && Tracks(pv, remaining0, idx0, usedP0)
    requires GreedySoFar(g, ev, pv, threshold, done, remaining0, matches0, missed0, usedE0, usedP0)
    requires Trace(g, ev, pv, threshold, done, hits0, misses0, idx0)
    requires Renders(g, ev, pv, hits0, misses0, idx0, matches0, missed0, remaining0)
    ensures Trace(g, ev, pv, threshold, done + 1, hits, misses, idx)
    ensures Renders(g, ev, pv, hits, misses, idx, matches, missed, remaining)
    ensures Tracks(pv, remaining, idx, usedP)
    ensures GreedySoFar(g, ev, pv, threshold, done + 1, remaining, matches, missed, usedE, usedP)
  {
    remaining, matches, missed := remaining0, matches0, missed0;
    usedE, usedP, hits, misses, idx := usedE0, usedP0, hits0, misses0, idx0;
    var best, score := FindBest(g, ev[done], remaining);
    if best >= 0 && score >= threshold {
      GreedyHit(g, ev, pv, threshold, done, remaining, matches, missed, usedE, usedP, idx, best);
      TracksRemove(pv, remaining, idx, usedP, best);
      FirstBestHit(g, ev, pv, threshold, done, hits, misses, idx, best);
      TraceHit(g, ev, pv, threshold, done, hits, misses, idx, best);
      hits := hits + [(done, idx[best])];
      matches := matches + [Match(ev[done], remaining[best], score)];
      remaining := Remove(remaining, best);
      usedE, usedP, idx := usedE + {done}, usedP + {idx[best]}, Remove(idx, best);
    } else {
      GreedyMiss(g, ev, pv, threshold, done, remaining, matches, missed, usedE, usedP, idx);
      TraceMiss(g, ev, pv, threshold, done, hits, misses, idx);
      misses := misses + [done];
      missed := missed + [ev[done]];
    }
  }

  lemma GreedyStart(g: Grader, ev: seq<string>, pv: seq<string>, threshold: real) returns (idx: seq<nat>)
    ensures Tracks(pv, pv, idx, {})
    ensures GreedySoFar(g, ev, pv, threshold, 0, pv, [], [], {}, {})
    ensures Trace(g, ev, pv, threshold, 0, [], [], idx) && Renders(g, ev, pv, [], [], idx, [], [], pv)
  {
    idx := seq(|pv|, i requires 0 <= i => i as nat);
    forall j | 0 <= j < |pv| ensures j in idx {
      assert idx[j] == j;
    }
    assert ExpectedOf([]) == [] && PredictedOf([]) == [] && ev[..0] == [];
  }

  lemma GreedyEnd(g: Grader, ev: seq<string>, pv: seq<string>, threshold: real, remaining: seq<string>,
                  matches: seq<Match>, missed: seq<string>, usedE: set<nat>, usedP: set<nat>)
    requires GreedySoFar(g, ev, pv, threshold, |ev|, remaining, matches, missed, usedE, usedP)
    ensures multiset(ev) == multiset(ExpectedOf(matches)) + multiset(missed)
    ensures forall pairs :: ThresholdMatching(g, ev, pv, threshold, pairs) ==> |pairs| <= 2 * |matches|
  {
    assert ev[..|ev|] == ev;
    assert Maximal(g, ev, pv, threshold, usedE, usedP);
    forall pairs | ThresholdMatching(g, ev, pv, threshold, pairs) ensures |pairs| <= 2 * |matches| {
      MaximalIsHalfOptimal(g, ev, pv, threshold, usedE, usedP, pairs);
    }
  }
}
