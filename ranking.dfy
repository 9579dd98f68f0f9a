/** The Manager view's ranking in app1.py: `Counter(filtered).most_common(10)`.
    A `Counter` keeps its keys in first-seen order; `most_common(n)` sorts the
    (token, count) pairs by count, descending, with a stable sort, so tokens of
    equal count keep their first-seen order, and returns the first `n`. */
module Ranking {
  import opened SeqUtil

  /** One bar of the chart: a token and its number of occurrences. */
  datatype Entry = Entry(token: string, count: nat)

  /** Number of occurrences of `t` in `s`. */
  function Count(s: seq<string>, t: string): nat
  {
    multiset(s)[t]
  }

  /** The distinct tokens of `s` in order of first appearance: the key order
      of a `Counter` built from `s`. */
  function FirstSeen(s: seq<string>): (keys: seq<string>)
    ensures forall t :: t in keys <==> t in s
    ensures forall i, j :: 0 <= i < j < |keys| ==> keys[i] != keys[j]
  {
    if s == [] then []
    else
      var keys := FirstSeen(s[..|s| - 1]);
      assert s == s[..|s| - 1] + [s[|s| - 1]];
      if s[|s| - 1] in keys then keys else keys + [s[|s| - 1]]
  }

  /** Position of the first occurrence of `t` in `s`. */
  function FirstIndex(s: seq<string>, t: string): (i: nat)
    requires t in s
    ensures i < |s| && s[i] == t && t !in s[..i]
  {
    if t in s[..|s| - 1] then
      var i := FirstIndex(s[..|s| - 1], t);
      assert s[..i] == s[..|s| - 1][..i];
      i
    else
      assert s == s[..|s| - 1] + [s[|s| - 1]];
      |s| - 1
  }

  /** `a` comes strictly before `b` in `most_common()`: it occurs more often,
      or as often and was seen first. */
  predicate RanksBefore(s: seq<string>, a: string, b: string)
  {
    && a in s && b in s
    && (|| Count(s, a) > Count(s, b)
        || (Count(s, a) == Count(s, b) && FirstIndex(s, a) < FirstIndex(s, b)))
  }

  /** `t` is the token of some entry of `top`. */
  predicate Listed(top: seq<Entry>, t: string)
  {
    exists i :: 0 <= i < |top| && top[i].token == t
  }

  /** `top` is `Counter(s).most_common(n)`: the first `n` distinct tokens of `s`
      (all of them if there are fewer) ordered by `RanksBefore`, each with its
      number of occurrences. */
  predicate IsMostCommon(s: seq<string>, n: nat, top: seq<Entry>)
  {
    && |top| == Min(n, |FirstSeen(s)|)
    && (forall i :: 0 <= i < |top| ==> top[i].token in s && top[i].count == Count(s, top[i].token))
    && (forall i, j :: 0 <= i < j < |top| ==> RanksBefore(s, top[i].token, top[j].token))
    && (forall t :: t in s && !Listed(top, t) ==>
          forall i :: 0 <= i < |top| ==> RanksBefore(s, top[i].token, t))
  }

  /** `keys` and `counts` are a `Counter` built from `p`. */
  ghost predicate Tallies(p: seq<string>, keys: seq<string>, counts: map<string, nat>)
  {
    && keys == FirstSeen(p)
    && (forall u :: u in counts <==> u in p)
    && (forall u :: u in counts ==> counts[u] == Count(p, u))
  }

  /** The `Counter` loop: one pass over the tokens, adding new keys at the end
      and incrementing the count of known ones. */
  method CountTokens(s: seq<string>) returns (keys: seq<string>, counts: map<string, nat>)
    ensures keys == FirstSeen(s)
    ensures forall t :: t in counts <==> t in s
    ensures forall t :: t in counts ==> counts[t] == Count(s, t)
  {
    keys, counts := [], map[];
    var i := 0;
    while i < |s|
      invariant 0 <= i <= |s|
      invariant Tallies(s[..i], keys, counts)
    {
      var t := s[i];
      assert s[..i + 1] == s[..i] + [t];
      if t in counts {
        TallyKnown(s[..i], t, keys, counts);
        counts := counts[t := counts[t] + 1];
      } else {
        TallyNew(s[..i], t, keys, counts);
        keys := keys + [t];
        counts := counts[t := 1];
      }
      i := i + 1;
    }
    assert s[..|s|] == s;
  }

  /** One iteration of the `Counter` loop on a token already counted. */
  lemma TallyKnown(p: seq<string>, t: string, keys: seq<string>, counts: map<string, nat>)
    requires Tallies(p, keys, counts) && t in counts
    ensures Tallies(p + [t], keys, counts[t := counts[t] + 1])
  {
    FirstSeenSnoc(p, t);
    TallyCounts(p, t, counts, counts[t] + 1);
  }

  /** One iteration of the `Counter` loop on a token seen for the first time. */
  lemma TallyNew(p: seq<string>, t: string, keys: seq<string>, counts: map<string, nat>)
    requires Tallies(p, keys, counts) && t !in counts
    ensures Tallies(p + [t], keys + [t], counts[t := 1])
  {
    FirstSeenSnoc(p, t);
    TallyCounts(p, t, counts, 1);
  }

  lemma TallyCounts(p: seq<string>, t: string, counts: map<string, nat>, c: nat)
    requires forall u :: u in counts <==> u in p
    requires forall u :: u in counts ==> counts[u] == Count(p, u)
    requires c == Count(p, t) + 1
    ensures forall u :: u in counts[t := c] <==> u in p + [t]
    ensures forall u :: u in counts[t := c] ==> counts[t := c][u] == Count(p + [t], u)
  {
    CountSnoc(p, t);
  }

  lemma FirstSeenSnoc(p: seq<string>, t: string)
    ensures FirstSeen(p + [t]) == if t in FirstSeen(p) then FirstSeen(p) else FirstSeen(p) + [t]
  {
    assert (p + [t])[..|p|] == p;
  }

  lemma CountSnoc(p: seq<string>, t: string)
    ensures Count(p + [t], t) == Count(p, t) + 1
    ensures forall u :: u != t ==> Count(p + [t], u) == Count(p, u)
  {
    assert multiset(p + [t]) == multiset(p) + multiset{t};
  }

  /** Keys further to the right in `FirstSeen(s)` were first seen later. */
  lemma {:induction false} FirstSeenOrder(s: seq<string>, a: nat, b: nat)
    requires a < b < |FirstSeen(s)|
    ensures FirstIndex(s, FirstSeen(s)[a]) < FirstIndex(s, FirstSeen(s)[b])
    decreases |s|
  {
    var s' := s[..|s| - 1];
    var keys := FirstSeen(s);
    var keys' := FirstSeen(s');
    assert s == s' + [s[|s| - 1]];
    if b < |keys'| {
      assert keys[a] == keys'[a] && keys[b] == keys'[b];
      FirstSeenOrder(s', a, b);
      FirstIndexPrefix(s, keys[a]);
      FirstIndexPrefix(s, keys[b]);
    } else {
      assert keys[a] == keys'[a] && keys[a] in s';
      FirstIndexPrefix(s, keys[a]);
      assert keys[b] == s[|s| - 1] && keys[b] !in s';
    }
  }

  lemma FirstIndexPrefix(s: seq<string>, t: string)
    requires |s| > 0 && t in s[..|s| - 1]
    ensures FirstIndex(s, t) == FirstIndex(s[..|s| - 1], t)
  {
  }

  /** One round of the selection: the position, among the key positions
      `remaining`, of the key that ranks before all the others (highest count,
      and the earliest seen among equal counts since `remaining` is increasing). */
  method SelectBest(s: seq<string>, keys: seq<string>, counts: map<string, nat>, remaining: seq<nat>)
    returns (best: nat)
    requires keys == FirstSeen(s)
    requires forall t :: t in counts <==> t in s
    requires forall t :: t in counts ==> counts[t] == Count(s, t)
    requires |remaining| > 0
    requires forall i :: 0 <= i < |remaining| ==> remaining[i] < |keys|
    requires forall i, j :: 0 <= i < j < |remaining| ==> remaining[i] < remaining[j]
    ensures best < |remaining|
    ensures forall q :: 0 <= q < |remaining| && q != best ==>
              RanksBefore(s, keys[remaining[best]], keys[remaining[q]])
  {
    var c := seq(|remaining|, q requires 0 <= q < |remaining| => counts[keys[remaining[q]]]);
    assert forall q :: 0 <= q < |c| ==> c[q] == Count(s, keys[remaining[q]]);
    best := FirstMax(c);
    BestRanksFirst(s, keys, remaining, c, best);
  }

  /** The position of the first maximum of `c`: everything before it is
      smaller, nothing after it is larger. */
  method FirstMax(c: seq<nat>) returns (best: nat)
    requires |c| > 0
    ensures best < |c|
    ensures forall q :: 0 <= q < best ==> c[q] < c[best]
    ensures forall q :: best < q < |c| ==> c[q] <= c[best]
  {
    best := 0;
    var j := 1;
    while j < |c|
      invariant best < j <= |c|
      invariant forall q :: 0 <= q < best ==> c[q] < c[best]
      invariant forall q :: best < q < j ==> c[q] <= c[best]
    {
      if c[j] > c[best] {
        best := j;
      }
      j := j + 1;
    }
  }

  /** The key found by the scan of `SelectBest` (counts before it are lower,
      counts after it are not higher) ranks before every other remaining key:
      ties are won by the earlier position, which was seen first. */
  lemma {:induction false} BestRanksFirst(s: seq<string>, keys: seq<string>, remaining: seq<nat>,
                                          c: seq<nat>, best: nat)
    requires keys == FirstSeen(s)
    requires best < |remaining| == |c|
    requires forall i :: 0 <= i < |remaining| ==> remaining[i] < |keys|
    requires forall i, j :: 0 <= i < j < |remaining| ==> remaining[i] < remaining[j]
    requires forall q :: 0 <= q < |c| ==> c[q] == Count(s, keys[remaining[q]])
    requires forall q :: 0 <= q < best ==> c[q] < c[best]
    requires forall q :: best < q < |c| ==> c[q] <= c[best]
    ensures forall q :: 0 <= q < |remaining| && q != best ==>
              RanksBefore(s, keys[remaining[best]], keys[remaining[q]])
  {
    var k := remaining[best];
    forall q | 0 <= q < |remaining| && q != best
      ensures RanksBefore(s, keys[k], keys[remaining[q]])
    {
      if best < q {
        FirstSeenOrder(s, k, remaining[q]);
      }
    }
  }

  /** Bookkeeping of the selection loop of `MostCommon`: the positions of
      `keys` are split between `chosen` (already listed) and `remaining`
      (increasing). */
  ghost predicate Partition(n: nat, chosen: seq<nat>, remaining: seq<nat>)
  {
    && |chosen| + |remaining| == n
    && (forall i :: 0 <= i < |remaining| ==> remaining[i] < n)
    && (forall i, j :: 0 <= i < j < |remaining| ==> remaining[i] < remaining[j])
    && (forall i :: 0 <= i < |chosen| ==> chosen[i] < n && chosen[i] !in remaining)
    && (forall k :: 0 <= k < n ==> k in chosen || k in remaining)
  }

  /** State of the selection loop of `MostCommon`: `top` lists the chosen keys
      in ranking order, and every chosen key ranks before every remaining one. */
  ghost predicate Selection(s: seq<string>, keys: seq<string>, top: seq<Entry>,
                            chosen: seq<nat>, remaining: seq<nat>)
  {
    && keys == FirstSeen(s)
    && |chosen| == |top|
    && Partition(|keys|, chosen, remaining)
    && (forall i :: 0 <= i < |top| ==>
          top[i] == Entry(keys[chosen[i]], Count(s, keys[chosen[i]])))
    && (forall i, j :: 0 <= i < j < |chosen| ==>
          RanksBefore(s, keys[chosen[i]], keys[chosen[j]]))
    && (forall i, q :: 0 <= i < |chosen| && 0 <= q < |remaining| ==>
          RanksBefore(s, keys[chosen[i]], keys[remaining[q]]))
  }

  /** Nothing is chosen at first. */
  lemma SelectionStart(s: seq<string>, remaining: seq<nat>)
    requires |remaining| == |FirstSeen(s)|
    requires forall k :: 0 <= k < |remaining| ==> remaining[k] == k
    ensures Selection(s, FirstSeen(s), [], [], remaining)
  {
    forall k | 0 <= k < |remaining| ensures k in remaining {
      assert remaining[k] == k;
    }
  }

  /** Moving one remaining position to the chosen ones keeps the split. */
  lemma PartitionStep(n: nat, chosen: seq<nat>, remaining: seq<nat>, best: nat)
    requires Partition(n, chosen, remaining)
    requires best < |remaining|
    ensures Partition(n, chosen + [remaining[best]], remaining[..best] + remaining[best + 1..])
  {
    var k := remaining[best];
    var rest := remaining[..best] + remaining[best + 1..];
    assert forall q :: 0 <= q < |rest| ==> rest[q] == remaining[if q < best then q else q + 1];
    forall x | 0 <= x < n ensures x in chosen + [k] || x in rest {
      if x !in chosen && x != k {
        var q :| 0 <= q < |remaining| && remaining[q] == x;
        assert rest[if q < best then q else q - 1] == x;
      }
    }
    forall i | 0 <= i < |chosen| + 1 ensures (chosen + [k])[i] !in rest {
      if i == |chosen| {
        forall q | 0 <= q < |rest| ensures rest[q] != k {
          assert rest[q] == remaining[if q < best then q else q + 1];
        }
      } else {
        assert chosen[i] !in remaining;
      }
    }
  }

  /** Moving the best remaining key to the end of the list keeps the state. */
  lemma SelectionStep(s: seq<string>, keys: seq<string>, top: seq<Entry>,
                      chosen: seq<nat>, remaining: seq<nat>, best: nat)
    requires Selection(s, keys, top, chosen, remaining)
    requires best < |remaining|
    requires forall q :: 0 <= q < |remaining| && q != best ==>
               RanksBefore(s, keys[remaining[best]], keys[remaining[q]])
    ensures remaining[best] < |keys|
    ensures Selection(s, keys, top + [Entry(keys[remaining[best]], Count(s, keys[remaining[best]]))],
                      chosen + [remaining[best]], remaining[..best] + remaining[best + 1..])
  {
    var k := remaining[best];
    var rest := remaining[..best] + remaining[best + 1..];
    PartitionStep(|keys|, chosen, remaining, best);
    assert forall q :: 0 <= q < |rest| ==> rest[q] == remaining[if q < best then q else q + 1];
  }

  /** When the loop stops, the list is `most_common(n)`. */
  lemma SelectionDone(s: seq<string>, n: nat, keys: seq<string>, top: seq<Entry>,
                      chosen: seq<nat>, remaining: seq<nat>)
    requires Selection(s, keys, top, chosen, remaining)
    requires |top| <= n && (|top| == n || remaining == [])
    ensures IsMostCommon(s, n, top)
  {
    forall t | t in s && !Listed(top, t)
      ensures forall i :: 0 <= i < |top| ==> RanksBefore(s, top[i].token, t)
    {
      assert t in keys;
      var k :| 0 <= k < |keys| && keys[k] == t;
      assert k !in chosen;
      var q :| 0 <= q < |remaining| && remaining[q] == k;
    }
  }

  /** `Counter(s).most_common(n)`: the counts are gathered by `CountTokens`,
      then the best remaining key (highest count, earliest seen among equals)
      is moved to the result until `n` entries are listed or no key is left. */
  method MostCommon(s: seq<string>, n: nat) returns (top: seq<Entry>)
    ensures IsMostCommon(s, n, top)
  {
    var keys, counts := CountTokens(s);
    // Key positions not yet listed, in increasing order.
    var remaining: seq<nat> := seq(|keys|, i => i);
    ghost var chosen: seq<nat> := [];
    top := [];
    SelectionStart(s, remaining);
    while |top| < n && |remaining| > 0
      invariant |top| <= n
      invariant Selection(s, keys, top, chosen, remaining)
      decreases |remaining|
    {
      var best := SelectBest(s, keys, counts, remaining);
      SelectionStep(s, keys, top, chosen, remaining, best);
      var k := remaining[best];
      top := top + [Entry(keys[k], counts[keys[k]])];
      chosen := chosen + [k];
      remaining := remaining[..best] + remaining[best + 1..];
    }
    SelectionDone(s, n, keys, top, chosen, remaining);
  }

  /** At most `n` entries, distinct tokens, each counted at least once and
      exactly as often as it occurs. */
  lemma MostCommonEntries(s: seq<string>, n: nat, top: seq<Entry>)
    requires IsMostCommon(s, n, top)
    ensures |top| <= n
    ensures forall i :: 0 <= i < |top| ==> 1 <= top[i].count == Count(s, top[i].token)
    ensures forall i, j :: 0 <= i < j < |top| ==> top[i].token != top[j].token
  {
  }

  /** Counts never increase along the list. */
  lemma MostCommonNonIncreasing(s: seq<string>, n: nat, top: seq<Entry>)
    requires IsMostCommon(s, n, top)
    ensures forall i, j :: 0 <= i < j < |top| ==> top[i].count >= top[j].count
  {
  }

  /** A token left out occurs no more often than the last listed one. */
  lemma MostCommonOmittedNotMore(s: seq<string>, n: nat, top: seq<Entry>, t: string)
    requires IsMostCommon(s, n, top)
    requires t in s && !Listed(top, t) && |top| > 0
    ensures Count(s, t) <= top[|top| - 1].count
  {
  }

  /** With at most `n` distinct tokens every token is listed. */
  lemma MostCommonListsAll(s: seq<string>, n: nat, top: seq<Entry>, t: string)
    requires IsMostCommon(s, n, top)
    requires |FirstSeen(s)| <= n && t in s
    ensures Listed(top, t)
  {
    if !Listed(top, t) {
      MostCommonEntries(s, n, top);
      FewerListed(top, FirstSeen(s), t);
      assert false;
    }
  }

  /** Distinct listed tokens drawn from `keys`, all other than `t`, are fewer
      than the keys when `t` is a key. */
  lemma FewerListed(top: seq<Entry>, keys: seq<string>, t: string)
    requires forall i, j :: 0 <= i < j < |top| ==> top[i].token != top[j].token
    requires forall i, j :: 0 <= i < j < |keys| ==> keys[i] != keys[j]
    requires forall i :: 0 <= i < |top| ==> top[i].token in keys && top[i].token != t
    requires t in keys
    ensures |top| < |keys|
  {
    var listed := set i | 0 <= i < |top| :: top[i].token;
    var known := set k | k in keys;
    DistinctCard(top);
    DistinctSeqCard(keys);
    assert listed <= known - {t};
    assert |known - {t}| == |known| - 1;
    SubsetCard(listed, known - {t});
  }

  lemma {:induction false} SubsetCard(a: set<string>, b: set<string>)
    requires a <= b
    ensures |a| <= |b|
    decreases a
  {
    if a != {} {
      var x :| x in a;
      SubsetCard(a - {x}, b - {x});
    }
  }

  lemma {:induction false} DistinctCard(top: seq<Entry>)
    requires forall i, j :: 0 <= i < j < |top| ==> top[i].token != top[j].token
    ensures |set i | 0 <= i < |top| :: top[i].token| == |top|
    decreases |top|
  {
    if top != [] {
      var rest := top[1..];
      DistinctCard(rest);
      var a := set i | 0 <= i < |top| :: top[i].token;
      var b := set i | 0 <= i < |rest| :: rest[i].token;
      assert a == b + {top[0].token};
      assert top[0].token !in b;
    }
  }

  lemma {:induction false} DistinctSeqCard(keys: seq<string>)
    requires forall i, j :: 0 <= i < j < |keys| ==> keys[i] != keys[j]
    ensures |set k | k in keys| == |keys|
    decreases |keys|
  {
    if keys != [] {
      var rest := keys[1..];
      DistinctSeqCard(rest);
      assert (set k | k in keys) == (set k | k in rest) + {keys[0]};
    }
  }

  /** Nothing to count gives nothing to chart. */
  lemma MostCommonOfEmpty(n: nat, top: seq<Entry>)
    requires IsMostCommon([], n, top)
    ensures top == []
  {
  }

  /** The ranking is fully determined: two lists meeting the specification
      are equal, so the first-seen tie-break leaves no choice open. */
  lemma MostCommonUnique(s: seq<string>, n: nat, top1: seq<Entry>, top2: seq<Entry>)
    requires IsMostCommon(s, n, top1) && IsMostCommon(s, n, top2)
    ensures top1 == top2
  {
    if top1 != top2 {
      FirstDifference(top1, top2);
      var i :| 0 <= i < |top1| && top1[i] != top2[i] && forall p :: 0 <= p < i ==> top1[p] == top2[p];
      var a, b := top1[i].token, top2[i].token;
      assert a != b;
      MostCommonEntries(s, n, top1);
      MostCommonEntries(s, n, top2);
      RanksBeforeLater(s, n, top1, i, b);
      RanksBeforeLater(s, n, top2, i, a);
    }
  }

  /** The entry at position `i` ranks before every other token that does not
      appear earlier in the list. */
  lemma RanksBeforeLater(s: seq<string>, n: nat, top: seq<Entry>, i: nat, t: string)
    requires IsMostCommon(s, n, top)
    requires i < |top| && t in s && t != top[i].token
    requires forall p :: 0 <= p < i ==> top[p].token != t
    ensures RanksBefore(s, top[i].token, t)
  {
    if Listed(top, t) {
      var j :| 0 <= j < |top| && top[j].token == t;
      assert i < j;
    }
  }

  lemma FirstDifference(top1: seq<Entry>, top2: seq<Entry>)
    requires |top1| == |top2| && top1 != top2
    ensures exists i :: 0 <= i < |top1| && top1[i] != top2[i] && forall p :: 0 <= p < i ==> top1[p] == top2[p]
  {
    assert !(forall p :: 0 <= p < |top1| ==> top1[p] == top2[p]);
    var d :| 0 <= d < |top1| && top1[d] != top2[d];
    var i := 0;
    while top1[i] == top2[i]
      invariant 0 <= i <= d
      invariant forall p :: 0 <= p < i ==> top1[p] == top2[p]
      decreases d - i
    {
      i := i + 1;
    }
  }
}
