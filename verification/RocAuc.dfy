/** The tie-averaged rank-sum ROC AUC of internal/risk/model.go, against the pair-counting definition. */
module RocAuc {
  import opened Sequences

  datatype Prediction = Prediction(prob: real, positive: bool, rule: string)

  // ---------------------------------------------------------------- pair counting

  function Positives(s: seq<Prediction>): nat {
    if s == [] then 0 else (if s[0].positive then 1 else 0) + Positives(s[1..])
  }

  function Negatives(s: seq<Prediction>): nat {
    if s == [] then 0 else (if s[0].positive then 0 else 1) + Negatives(s[1..])
  }

  /** Two points for every negative of s scored below p, one for every negative tied with p. */
  function Credit(p: real, s: seq<Prediction>): nat {
    if s == [] then 0
    else (if s[0].positive || s[0].prob > p then 0 else if s[0].prob == p then 1 else 2) + Credit(p, s[1..])
  }

  /** The credit of all positives of s against the negatives of t: twice wins, plus ties. */
  function PairCredit(s: seq<Prediction>, t: seq<Prediction>): nat {
    if s == [] then 0 else (if s[0].positive then Credit(s[0].prob, t) else 0) + PairCredit(s[1..], t)
  }

  /** The number of positive/negative pairs with the positive in s and the negative in t. */
  function Pairs(s: seq<Prediction>, t: seq<Prediction>): nat {
    if s == [] then 0 else (if s[0].positive then Negatives(t) else 0) + Pairs(s[1..], t)
  }

  /** ROC AUC by definition: the share of positive/negative pairs ranked rightly, ties counting half. */
  function Auc(s: seq<Prediction>): real {
    if Pairs(s, s) == 0 then 0.0 else Ratio(PairCredit(s, s), 2 * Pairs(s, s))
  }

  function Ratio(k: nat, n: nat): real
    requires n > 0
  {
    k as real / n as real
  }

  lemma {:induction false} CountsAppend(s: seq<Prediction>, t: seq<Prediction>)
    ensures Positives(s + t) == Positives(s) + Positives(t)
    ensures Negatives(s + t) == Negatives(s) + Negatives(t)
  {
    if s == [] {
      assert s + t == t;
    } else {
      CountsAppend(s[1..], t);
      assert (s + t)[1..] == s[1..] + t;
    }
  }

  lemma CountsOfOne(p: Prediction)
    ensures Positives([p]) == (if p.positive then 1 else 0) && Negatives([p]) == 1 - Positives([p])
  {
    assert [p][1..] == [];
  }

  lemma {:induction false} CreditAppend(p: real, s: seq<Prediction>, t: seq<Prediction>)
    ensures Credit(p, s + t) == Credit(p, s) + Credit(p, t)
  {
    if s == [] {
      assert s + t == t;
    } else {
      CreditAppend(p, s[1..], t);
      assert (s + t)[1..] == s[1..] + t;
    }
  }

  lemma {:induction false} PairCreditAppendLeft(s: seq<Prediction>, s': seq<Prediction>, t: seq<Prediction>)
    ensures PairCredit(s + s', t) == PairCredit(s, t) + PairCredit(s', t)
    ensures Pairs(s + s', t) == Pairs(s, t) + Pairs(s', t)
  {
    if s == [] {
      assert s + s' == s';
    } else {
      PairCreditAppendLeft(s[1..], s', t);
      assert (s + s')[1..] == s[1..] + s';
    }
  }

  lemma {:induction false} PairCreditAppendRight(s: seq<Prediction>, t: seq<Prediction>, t': seq<Prediction>)
    ensures PairCredit(s, t + t') == PairCredit(s, t) + PairCredit(s, t')
    ensures Pairs(s, t + t') == Pairs(s, t) + Pairs(s, t')
  {
    if s == [] {
    } else {
      PairCreditAppendRight(s[1..], t, t');
      CreditAppend(s[0].prob, t, t');
      CountsAppend(t, t');
    }
  }

  lemma {:induction false} CountsTotal(s: seq<Prediction>)
    ensures Positives(s) + Negatives(s) == |s|
  {
    if s == [] {
    } else {
      CountsTotal(s[1..]);
    }
  }

  // ---------------------------------------------------------------- order of the rows

  lemma {:induction false} CreditRemove(p: real, s: seq<Prediction>, i: nat)
    requires i < |s|
    ensures Credit(p, s) == Credit(p, [s[i]]) + Credit(p, s[..i] + s[i + 1..])
    ensures Positives(s) == Positives([s[i]]) + Positives(s[..i] + s[i + 1..])
    ensures Negatives(s) == Negatives([s[i]]) + Negatives(s[..i] + s[i + 1..])
  {
    assert s == s[..i] + ([s[i]] + s[i + 1..]);
    CreditAppend(p, s[..i], [s[i]] + s[i + 1..]);
    CreditAppend(p, [s[i]], s[i + 1..]);
    CreditAppend(p, s[..i], s[i + 1..]);
    CountsAppend(s[..i], [s[i]] + s[i + 1..]);
    CountsAppend([s[i]], s[i + 1..]);
    CountsAppend(s[..i], s[i + 1..]);
  }

  lemma {:induction false} CreditPermutation(p: real, s: seq<Prediction>, t: seq<Prediction>)
    requires multiset(s) == multiset(t)
    ensures Credit(p, s) == Credit(p, t) && Positives(s) == Positives(t) && Negatives(s) == Negatives(t)
    decreases |s|
  {
    if s == [] {
      assert |multiset(t)| == 0;
    } else {
      var i := PermutationTail(s, t);
      CreditRemove(p, t, i);
      CreditRemove(p, s, 0);
      assert s[..0] + s[0 + 1..] == s[1..];
      CreditPermutation(p, s[1..], t[..i] + t[i + 1..]);
    }
  }

  lemma {:induction false} PairCreditPermutation(s: seq<Prediction>, t: seq<Prediction>, u: seq<Prediction>,
                                                 v: seq<Prediction>)
    requires multiset(s) == multiset(t) && multiset(u) == multiset(v)
    ensures PairCredit(s, u) == PairCredit(t, v) && Pairs(s, u) == Pairs(t, v)
    decreases |s|
  {
    if s == [] {
      assert |multiset(t)| == 0;
    } else {
      var i := PermutationTail(s, t);
      PairCreditPermutation(s[1..], t[..i] + t[i + 1..], u, v);
      CreditPermutation(s[0].prob, u, v);
      assert t == t[..i] + ([t[i]] + t[i + 1..]);
      PairCreditAppendLeft(t[..i], [t[i]] + t[i + 1..], v);
      PairCreditAppendLeft([t[i]], t[i + 1..], v);
      PairCreditAppendLeft(t[..i], t[i + 1..], v);
    }
  }

  /** AUC depends only on which predictions there are, not on their order. */
  lemma AucIgnoresOrder(s: seq<Prediction>, t: seq<Prediction>)
    requires multiset(s) == multiset(t)
    ensures Auc(s) == Auc(t)
  {
    PairCreditPermutation(s, t, s, t);
  }

  // ---------------------------------------------------------------- range and label swap

  lemma {:induction false} CreditBound(p: real, s: seq<Prediction>)
    ensures Credit(p, s) <= 2 * Negatives(s)
  {
    if s == [] {
    } else {
      CreditBound(p, s[1..]);
    }
  }

  lemma {:induction false} PairCreditBound(s: seq<Prediction>, t: seq<Prediction>)
    ensures PairCredit(s, t) <= 2 * Pairs(s, t)
  {
    if s == [] {
    } else {
      PairCreditBound(s[1..], t);
      CreditBound(s[0].prob, t);
    }
  }

  lemma AucInUnitInterval(s: seq<Prediction>)
    ensures 0.0 <= Auc(s) <= 1.0
  {
    PairCreditBound(s, s);
    if Pairs(s, s) > 0 {
      RatioLaws(PairCredit(s, s), 2 * Pairs(s, s));
    }
  }

  function Swapped(s: seq<Prediction>): (r: seq<Prediction>)
    ensures |r| == |s|
  {
    if s == [] then [] else [s[0].(positive := !s[0].positive)] + Swapped(s[1..])
  }

  lemma {:induction false} SwappedCounts(s: seq<Prediction>)
    ensures Positives(Swapped(s)) == Negatives(s) && Negatives(Swapped(s)) == Positives(s)
  {
    if s == [] {
    } else {
      SwappedCounts(s[1..]);
      assert Swapped(s)[1..] == Swapped(s[1..]);
    }
  }

  lemma CreditOfOne(p: real, q: Prediction)
    ensures Credit(p, [q]) == if q.positive || q.prob > p then 0 else if q.prob == p then 1 else 2
  {
    assert [q][1..] == [];
  }

  /** Against one row q: what s earns as positives and what q earns once the labels are swapped. */
  lemma {:induction false} CreditAgainstOne(s: seq<Prediction>, q: Prediction)
    ensures PairCredit(s, [q]) + (if q.positive then 0 else Credit(q.prob, Swapped(s)))
         == if q.positive then 0 else 2 * Positives(s)
    ensures Pairs(s, [q]) == if q.positive then 0 else Positives(s)
  {
    if s == [] {
    } else {
      CreditAgainstOne(s[1..], q);
      CreditOfOne(s[0].prob, q);
      CountsOfOne(q);
      assert Swapped(s)[1..] == Swapped(s[1..]);
    }
  }

  lemma {:induction false} NothingAgainstNobody(s: seq<Prediction>)
    ensures PairCredit(s, []) == Pairs(s, []) == 0
  {
    if s == [] {
    } else {
      NothingAgainstNobody(s[1..]);
    }
  }

  lemma {:induction false} SwapComplements(s: seq<Prediction>, t: seq<Prediction>)
    ensures PairCredit(s, t) + PairCredit(Swapped(t), Swapped(s)) == 2 * Pairs(s, t)
    ensures Pairs(Swapped(t), Swapped(s)) == Pairs(s, t)
  {
    if t == [] {
      NothingAgainstNobody(s);
    } else {
      SwapComplements(s, t[1..]);
      assert t == [t[0]] + t[1..];
      PairCreditAppendRight(s, [t[0]], t[1..]);
      CreditAgainstOne(s, t[0]);
      SwappedCounts(s);
      assert Swapped(t)[1..] == Swapped(t[1..]);
    }
  }

  /** Calling every finding by the other label turns AUC into 1 - AUC, given both classes. */
  lemma AucOfSwappedLabels(s: seq<Prediction>)
    requires Positives(s) > 0 && Negatives(s) > 0
    ensures Auc(Swapped(s)) == 1.0 - Auc(s)
  {
    SwapComplements(s, s);
    PairsIsProduct(s, s);
    PairCreditBound(s, s);
    RatioLaws(PairCredit(s, s), 2 * Pairs(s, s));
  }

  /** AUC is 1 exactly when every positive is scored strictly above every negative. */
  lemma PerfectExactlyWhenSeparated(s: seq<Prediction>)
    requires Positives(s) > 0 && Negatives(s) > 0
    ensures Auc(s) == 1.0 <==>
            forall p, q :: p in s && q in s && p.positive && !q.positive ==> q.prob < p.prob
  {
    FullCredit(s, s);
    PairCreditBound(s, s);
    PairsIsProduct(s, s);
    RatioLaws(PairCredit(s, s), 2 * Pairs(s, s));
  }

  lemma {:induction false} FullCreditOfOne(p: real, t: seq<Prediction>)
    ensures Credit(p, t) == 2 * Negatives(t) <==> forall q :: q in t && !q.positive ==> q.prob < p
  {
    if t == [] {
    } else {
      FullCreditOfOne(p, t[1..]);
      CreditBound(p, t[1..]);
      assert forall q :: q in t <==> q == t[0] || q in t[1..];
    }
  }

  lemma {:induction false} FullCredit(s: seq<Prediction>, t: seq<Prediction>)
    ensures PairCredit(s, t) == 2 * Pairs(s, t) <==>
            forall p, q :: p in s && q in t && p.positive && !q.positive ==> q.prob < p.prob
  {
    if s == [] {
    } else {
      FullCredit(s[1..], t);
      FullCreditOfOne(s[0].prob, t);
      CreditBound(s[0].prob, t);
      PairCreditBound(s[1..], t);
      assert forall p :: p in s <==> p == s[0] || p in s[1..];
    }
  }

  lemma {:induction false} PairsIsProduct(s: seq<Prediction>, t: seq<Prediction>)
    ensures Pairs(s, t) == Times(Positives(s), Negatives(t))
    ensures Pairs(s, t) == 0 <==> Positives(s) == 0 || Negatives(t) == 0
  {
    if s == [] {
    } else {
      PairsIsProduct(s[1..], t);
    }
  }

  // ---------------------------------------------------------------- the rank-sum loop

  ghost predicate Ascending(s: seq<Prediction>) {
    |s| < 2 || (s[0].prob <= s[1].prob && Ascending(s[1..]))
  }

  ghost predicate Below(s: seq<Prediction>, v: real) {
    s == [] || (s[0].prob < v && Below(s[1..], v))
  }

  ghost predicate Tied(s: seq<Prediction>, v: real) {
    s == [] || (s[0].prob == v && Tied(s[1..], v))
  }

  function Insert(s: seq<Prediction>, p: Prediction): seq<Prediction> {
    if s == [] || p.prob < s[0].prob then [p] + s else [s[0]] + Insert(s[1..], p)
  }

  lemma {:induction false} InsertKeepsContents(s: seq<Prediction>, p: Prediction)
    ensures multiset(Insert(s, p)) == multiset(s) + multiset{p}
  {
    if s != [] && p.prob >= s[0].prob {
      InsertKeepsContents(s[1..], p);
      assert s == [s[0]] + s[1..];
    }
  }

  lemma InsertFirst(s: seq<Prediction>, p: Prediction)
    ensures Insert(s, p) != [] && (Insert(s, p)[0] == p || (s != [] && Insert(s, p)[0] == s[0]))
  {
  }

  lemma {:induction false} InsertKeepsOrder(s: seq<Prediction>, p: Prediction)
    requires Ascending(s)
    ensures Ascending(Insert(s, p))
  {
    if s == [] || p.prob < s[0].prob {
      assert ([p] + s)[1..] == s;
    } else {
      var r := Insert(s[1..], p);
      InsertKeepsOrder(s[1..], p);
      InsertFirst(s[1..], p);
      assert ([s[0]] + r)[1..] == r;
    }
  }

  lemma InsertSorts(s: seq<Prediction>, sorted: seq<Prediction>)
    requires s != [] && Ascending(sorted) && multiset(sorted) == multiset(s[..|s| - 1])
    ensures Ascending(Insert(sorted, s[|s| - 1])) && multiset(Insert(sorted, s[|s| - 1])) == multiset(s)
  {
    var last := s[|s| - 1];
    InsertKeepsOrder(sorted, last);
    InsertKeepsContents(sorted, last);
    assert s == s[..|s| - 1] + [last];
  }

  /** The library's stable sort by probability. */
  function StableSort(s: seq<Prediction>): (r: seq<Prediction>)
    ensures Ascending(r) && multiset(r) == multiset(s)
  {
    if s == [] then []
    else
      var sorted := StableSort(s[..|s| - 1]);
      InsertSorts(s, sorted);
      Insert(sorted, s[|s| - 1])
  }

  lemma {:induction false} CreditOfBelow(s: seq<Prediction>, v: real)
    requires Below(s, v)
    ensures Credit(v, s) == 2 * Negatives(s)
  {
    if s == [] {
    } else {
      CreditOfBelow(s[1..], v);
    }
  }

  lemma {:induction false} CreditOfTied(s: seq<Prediction>, v: real)
    requires Tied(s, v)
    ensures Credit(v, s) == Negatives(s)
    ensures forall p :: p < v ==> Credit(p, s) == 0
  {
    if s == [] {
    } else {
      CreditOfTied(s[1..], v);
    }
  }

  lemma {:induction false} NoCreditAgainstAbove(s: seq<Prediction>, tied: seq<Prediction>, v: real)
    requires Below(s, v) && Tied(tied, v)
    ensures PairCredit(s, tied) == 0
  {
    if s == [] {
    } else {
      NoCreditAgainstAbove(s[1..], tied, v);
      CreditOfTied(tied, v);
    }
  }

  lemma {:induction false} PairCreditOfTied(s: seq<Prediction>, below: seq<Prediction>, tied: seq<Prediction>, v: real)
    requires Tied(s, v) && Below(below, v) && Tied(tied, v)
    ensures PairCredit(s, below + tied) == Times(Positives(s), 2 * Negatives(below) + Negatives(tied))
  {
    if s == [] {
    } else {
      PairCreditOfTied(s[1..], below, tied, v);
      CreditAppend(v, below, tied);
      CreditOfBelow(below, v);
      CreditOfTied(tied, v);
    }
  }

  function Triangle(n: nat): nat {
    if n == 0 then 0 else n + Triangle(n - 1)
  }

  lemma {:induction false} TriangleStep(p: nat, g: nat)
    ensures 2 * Triangle(p + g) == 2 * Triangle(p) + Times(g, 2 * p + g + 1)
  {
    if g == 0 {
    } else {
      TriangleStep(p, g - 1);
      TimesSuccessor(g - 1, 2 * p + g);
    }
  }

  lemma PairCreditOfGroup(before: seq<Prediction>, tied: seq<Prediction>, v: real)
    requires Below(before, v) && Tied(tied, v)
    ensures PairCredit(before + tied, before + tied)
         == PairCredit(before, before) + Times(Positives(tied), 2 * Negatives(before) + Negatives(tied))
  {
    PairCreditAppendLeft(before, tied, before + tied);
    PairCreditAppendRight(before, before, tied);
    NoCreditAgainstAbove(before, tied, v);
    PairCreditOfTied(tied, before, tied, v);
  }

  /** A tie group of g positives and h negatives, after p positives and n negatives: every positive
      in it takes the average rank of the group, and this is twice the sum of those ranks. */
  lemma AverageRanks(p: nat, n: nat, g: nat, h: nat)
    ensures Times(g, 2 * (p + n) + (g + h) + 1) == Times(g, 2 * n + h) + 2 * Triangle(p + g) - 2 * Triangle(p)
  {
    TriangleStep(p, g);
    TimesDistributes(g, 2 * n + h, 2 * p + g + 1);
  }

  lemma {:induction false} TiedAppend(s: seq<Prediction>, p: Prediction, v: real)
    requires Tied(s, v) && p.prob == v
    ensures Tied(s + [p], v)
  {
    if s == [] {
    } else {
      TiedAppend(s[1..], p, v);
      assert (s + [p])[1..] == s[1..] + [p];
    }
  }

  /** Below the next value: what is below v or tied at v < w, in either order of concatenation. */
  lemma {:induction false} BelowNext(before: seq<Prediction>, tied: seq<Prediction>, v: real, w: real)
    requires Below(before, v) && Tied(tied, v) && v < w
    ensures Below(before + tied, w)
    decreases |before| + |tied|
  {
    if before != [] {
      BelowNext(before[1..], tied, v, w);
      assert (before + tied)[1..] == before[1..] + tied;
    } else if tied != [] {
      BelowNext(before, tied[1..], v, w);
      assert (before + tied)[1..] == before + tied[1..];
    }
  }

  lemma {:induction false} AscendingStep(s: seq<Prediction>, i: nat)
    requires Ascending(s) && i + 1 < |s|
    ensures s[i].prob <= s[i + 1].prob
  {
    if i == 0 {
    } else {
      AscendingStep(s[1..], i - 1);
    }
  }

  lemma NextCounts(group: seq<Prediction>, i: nat)
    requires i < |group|
    ensures Positives(group[..i + 1]) == Positives(group[..i]) + (if group[i].positive then 1 else 0)
    ensures Negatives(group[..i + 1]) == Negatives(group[..i]) + (if group[i].positive then 0 else 1)
  {
    assert group[..i + 1] == group[..i] + [group[i]];
    CountsAppend(group[..i], [group[i]]);
    CountsOfOne(group[i]);
  }

  lemma NextRank(base: real, sum: real, p: nat, ends: nat)
    requires 2.0 * sum == 2.0 * base + Times(p, ends) as real
    ensures 2.0 * (sum + ends as real / 2.0) == 2.0 * base + Times(p + 1, ends) as real
  {
  }

  /** The inner loop: every positive of one tie group gets the group's average rank. */
  method RankTieGroup(group: seq<Prediction>, start: nat, rankSum: real, positives: nat, negatives: nat,
                      ghost credit: nat)
    returns (rankSum': real, positives': nat, negatives': nat, ghost credit': nat)
    requires positives + negatives == start
    requires 2.0 * rankSum == (credit + 2 * Triangle(positives)) as real
    ensures positives' == positives + Positives(group) && negatives' == negatives + Negatives(group)
    ensures credit' == credit + Times(Positives(group), 2 * negatives + Negatives(group))
    ensures 2.0 * rankSum' == (credit' + 2 * Triangle(positives')) as real
  {
    var end := start + |group|;
    var averageRank := (start + 1 + end) as real / 2.0;
    var sum, p, n := rankSum, 0, 0;
    for i := 0 to |group|
      invariant p == Positives(group[..i]) && n == Negatives(group[..i])
      invariant 2.0 * sum == 2.0 * rankSum + Times(p, start + 1 + end) as real
    {
      NextCounts(group, i);
      if group[i].positive {
        NextRank(rankSum, sum, p, start + 1 + end);
        sum, p := sum + averageRank, p + 1;
      } else {
        n := n + 1;
      }
    }
    assert group[..|group|] == group;
    CountsTotal(group);
    AverageRanks(positives, negatives, p, n);
    rankSum', positives', negatives' := sum, positives + p, negatives + n;
    credit' := credit + Times(p, 2 * negatives + n);
  }

  /** Where the tie group that begins at start ends. */
  method TieEnd(ranked: seq<Prediction>, start: nat) returns (end: nat)
    requires Ascending(ranked) && start < |ranked|
    ensures start < end <= |ranked|
    ensures Tied(ranked[start..end], ranked[start].prob)
    ensures end < |ranked| ==> ranked[start].prob < ranked[end].prob
  {
    end := start + 1;
    while end < |ranked| && ranked[end].prob == ranked[start].prob
      invariant start < end <= |ranked|
      invariant Tied(ranked[start..end], ranked[start].prob) && ranked[end - 1].prob == ranked[start].prob
    {
      TiedAppend(ranked[start..end], ranked[end], ranked[start].prob);
      assert ranked[start..end + 1] == ranked[start..end] + [ranked[end]];
      end := end + 1;
    }
    if end < |ranked| { AscendingStep(ranked, end - 1); }
  }

  lemma NextGroup(ranked: seq<Prediction>, start: nat, end: nat)
    requires start < end <= |ranked|
    requires Below(ranked[..start], ranked[start].prob) && Tied(ranked[start..end], ranked[start].prob)
    ensures PairCredit(ranked[..end], ranked[..end])
         == PairCredit(ranked[..start], ranked[..start])
          + Times(Positives(ranked[start..end]), 2 * Negatives(ranked[..start]) + Negatives(ranked[start..end]))
    ensures Positives(ranked[..end]) == Positives(ranked[..start]) + Positives(ranked[start..end])
    ensures Negatives(ranked[..end]) == Negatives(ranked[..start]) + Negatives(ranked[start..end])
    ensures end < |ranked| && ranked[start].prob < ranked[end].prob ==> Below(ranked[..end], ranked[end].prob)
  {
    var before, tied, v := ranked[..start], ranked[start..end], ranked[start].prob;
    assert ranked[..end] == before + tied;
    CountsAppend(before, tied);
    PairCreditOfGroup(before, tied, v);
    if end < |ranked| && v < ranked[end].prob { BelowNext(before, tied, v, ranked[end].prob); }
  }

  /** The last step: from the positives' rank sum to the area. */
  function FromRankSum(rankSum: real, positives: nat, negatives: nat): real {
    if positives == 0 || negatives == 0 then 0.0
    else
      TimesIsProduct(positives, negatives);
      (rankSum - (positives * (positives + 1)) as real / 2.0) / (positives * negatives) as real
  }

  lemma RankSumIsAuc(s: seq<Prediction>, rankSum: real)
    requires 2.0 * rankSum == (PairCredit(s, s) + 2 * Triangle(Positives(s))) as real
    ensures FromRankSum(rankSum, Positives(s), Negatives(s)) == Auc(s)
  {
    PairsIsProduct(s, s);
    if Positives(s) > 0 && Negatives(s) > 0 {
      TimesIsProduct(Positives(s), Negatives(s));
      TriangleStep(0, Positives(s));
      TimesIsProduct(Positives(s), Positives(s) + 1);
      RankSumQuotient(rankSum, Positives(s), PairCredit(s, s), Triangle(Positives(s)), Pairs(s, s));
    }
  }

  /** The outer loop, over rows already sorted by probability. */
  method RankSum(ranked: seq<Prediction>) returns (rankSum: real, positives: nat, negatives: nat)
    requires Ascending(ranked)
    ensures positives == Positives(ranked) && negatives == Negatives(ranked)
    ensures 2.0 * rankSum == (PairCredit(ranked, ranked) + 2 * Triangle(positives)) as real
  {
    rankSum, positives, negatives := 0.0, 0, 0;
    ghost var credit := 0;
    var start := 0;
    while start < |ranked|
      invariant 0 <= start <= |ranked|
      invariant start < |ranked| ==> Below(ranked[..start], ranked[start].prob)
      invariant positives == Positives(ranked[..start]) && negatives == Negatives(ranked[..start])
      invariant credit == PairCredit(ranked[..start], ranked[..start])
      invariant 2.0 * rankSum == (credit + 2 * Triangle(positives)) as real
    {
      var end := TieEnd(ranked, start);
      CountsTotal(ranked[..start]);
      NextGroup(ranked, start, end);
      rankSum, positives, negatives, credit :=
        RankTieGroup(ranked[start..end], start, rankSum, positives, negatives, credit);
      start := end;
    }
    assert ranked[..start] == ranked;
  }

  /** The rank-sum computation of areaUnderROC yields the pair-counting AUC. */
  method AreaUnderROC(predictions: seq<Prediction>) returns (auc: real)
    ensures auc == Auc(predictions)
  {
    var ranked := StableSort(predictions);
    var rankSum, positives, negatives := RankSum(ranked);
    auc := FromRankSum(rankSum, positives, negatives);
    RankSumIsAuc(ranked, rankSum);
    AucIgnoresOrder(predictions, ranked);
  }

  // ---------------------------------------------------------------- arithmetic

  /** Multiplication as repeated addition, which keeps the counting lemmas linear. */
  function Times(a: nat, b: nat): nat {
    if a == 0 then 0 else b + Times(a - 1, b)
  }

  lemma {:induction false} TimesDistributes(a: nat, b: nat, c: nat)
    ensures Times(a, b + c) == Times(a, b) + Times(a, c)
  {
    if a == 0 {
    } else {
      TimesDistributes(a - 1, b, c);
    }
  }

  lemma {:induction false} TimesSuccessor(a: nat, b: nat)
    ensures Times(a, b + 1) == Times(a, b) + a
  {
    if a == 0 {
    } else {
      TimesSuccessor(a - 1, b);
    }
  }

  lemma {:induction false} TimesIsProduct(a: nat, b: nat)
    ensures Times(a, b) == a * b
    ensures a > 0 && b > 0 ==> a * b > 0
  {
    if a == 0 {
    } else {
      TimesIsProduct(a - 1, b);
      assert a * b == (a - 1) * b + b;
    }
  }

  lemma RatioLaws(k: nat, n: nat)
    requires n > 0 && k <= n
    ensures 0.0 <= Ratio(k, n) <= 1.0
    ensures Ratio(k, n) == 1.0 <==> k == n
    ensures Ratio(n - k, n) == 1.0 - Ratio(k, n)
  {
    SumOfRatios(k as real, (n - k) as real, n as real);
  }

  lemma SumOfRatios(x: real, y: real, m: real)
    requires m > 0.0 && x + y == m
    ensures x / m + y / m == 1.0
  {
    Distribute(x / m, y / m, m, x, y);
  }

  lemma Distribute(q: real, r: real, m: real, x: real, y: real)
    requires m > 0.0 && q * m == x && r * m == y && x + y == m
    ensures q + r == 1.0
  {
    assert (q + r) * m == m;
  }

  /** The last line of the rank-sum computation, with s the rank sum and p the number of positives. */
  lemma RankSumQuotient(s: real, p: nat, k: nat, t: nat, n: nat)
    requires n > 0 && p * (p + 1) == 2 * t && 2.0 * s == (k + 2 * t) as real
    ensures (s - (p * (p + 1)) as real / 2.0) / n as real == Ratio(k, 2 * n)
  {
    var d, m := s - (p * (p + 1)) as real / 2.0, n as real;
    assert d * 2.0 == k as real;
    var q := d / m;
    assert q * m == d;
    assert q * (2.0 * m) == (q * m) * 2.0;
  }
}
