/** The Laplace-smoothed multinomial Naive Bayes model of internal/risk/model.go: training and scoring. */
module NaiveBayes {
  import opened Sequences

  datatype Label = Unlabeled | Negative | Positive

  /** The part of an observation the risk model reads; evidence stands for everything features come from. */
  datatype Observation = Observation(
    source: string, scanID: string, hostID: string, ruleID: string, verdict: string, score: nat,
    evidence: map<string, string>)

  type Extractor = Observation -> seq<string>

  function LabelOf(verdict: string): Label {
    if verdict == "false_positive" then Negative
    else if verdict == "true_positive" then Positive
    else Unlabeled
  }

  /** One label's slot of classDoc, classFeat and featCount. The Unlabeled slots are never written. */
  datatype ClassCounts = ClassCounts(docs: nat, total: nat, count: map<string, nat>)

  datatype Model = Model(negative: ClassCounts, positive: ClassCounts, vocab: set<string>, feats: Extractor) {
    function Class(positiveClass: bool): ClassCounts {
      if positiveClass then positive else negative
    }

    predicate Trained() {
      positive.docs > 0 && negative.docs > 0
    }
  }

  // ---------------------------------------------------------------- what training counts

  function Docs(rows: seq<Observation>, l: Label): nat {
    if rows == [] then 0 else (if LabelOf(rows[0].verdict) == l then 1 else 0) + Docs(rows[1..], l)
  }

  function RowBag(o: Observation, feats: Extractor, l: Label): multiset<string> {
    if LabelOf(o.verdict) == l then multiset(feats(o)) else multiset{}
  }

  /** All feature occurrences in the rows of one label. */
  function Bag(rows: seq<Observation>, feats: Extractor, l: Label): multiset<string> {
    if rows == [] then multiset{} else RowBag(rows[0], feats, l) + Bag(rows[1..], feats, l)
  }

  function Tabulate(docs: nat, bag: multiset<string>): ClassCounts {
    ClassCounts(docs, |bag|, map f | f in bag :: bag[f])
  }

  function ClassOf(rows: seq<Observation>, feats: Extractor, l: Label): ClassCounts {
    Tabulate(Docs(rows, l), Bag(rows, feats, l))
  }

  function VocabOf(rows: seq<Observation>, feats: Extractor): set<string> {
    set f | f in Bag(rows, feats, Negative) + Bag(rows, feats, Positive)
  }

  function ModelOf(rows: seq<Observation>, feats: Extractor): Model {
    Model(ClassOf(rows, feats, Negative), ClassOf(rows, feats, Positive), VocabOf(rows, feats), feats)
  }

  lemma {:induction false} DocsAppend(rows: seq<Observation>, rows': seq<Observation>, l: Label)
    ensures Docs(rows + rows', l) == Docs(rows, l) + Docs(rows', l)
  {
    if rows == [] {
      assert rows + rows' == rows';
    } else {
      DocsAppend(rows[1..], rows', l);
      assert (rows + rows')[1..] == rows[1..] + rows';
    }
  }

  lemma SumAssociates(a: multiset<string>, b: multiset<string>, c: multiset<string>)
    ensures a + (b + c) == a + b + c
  {
  }

  lemma BagOfFirst(rows: seq<Observation>, rows': seq<Observation>, feats: Extractor, l: Label)
    requires rows != []
    ensures Bag(rows + rows', feats, l) == RowBag(rows[0], feats, l) + Bag(rows[1..] + rows', feats, l)
  {
    assert (rows + rows')[1..] == rows[1..] + rows';
  }

  lemma {:induction false} BagAppend(rows: seq<Observation>, rows': seq<Observation>, feats: Extractor, l: Label)
    ensures Bag(rows + rows', feats, l) == Bag(rows, feats, l) + Bag(rows', feats, l)
  {
    if rows == [] {
      assert rows + rows' == rows';
    } else {
      BagOfFirst(rows, rows', feats, l);
      BagAppend(rows[1..], rows', feats, l);
      SumAssociates(RowBag(rows[0], feats, l), Bag(rows[1..], feats, l), Bag(rows', feats, l));
    }
  }

  lemma CountsAppend(rows: seq<Observation>, rows': seq<Observation>, feats: Extractor, l: Label)
    ensures Docs(rows + rows', l) == Docs(rows, l) + Docs(rows', l)
    ensures Bag(rows + rows', feats, l) == Bag(rows, feats, l) + Bag(rows', feats, l)
  {
    DocsAppend(rows, rows', l);
    BagAppend(rows, rows', feats, l);
  }

  lemma CountsOfOne(o: Observation, feats: Extractor, l: Label)
    ensures Docs([o], l) == if LabelOf(o.verdict) == l then 1 else 0
    ensures Bag([o], feats, l) == RowBag(o, feats, l)
  {
    assert [o][1..] == [];
  }

  /** One more occurrence of f in a class. */
  function AddToken(c: ClassCounts, f: string): ClassCounts {
    c.(total := c.total + 1, count := c.count[f := (if f in c.count then c.count[f] else 0) + 1])
  }

  lemma AddTokenTabulates(docs: nat, bag: multiset<string>, f: string)
    ensures AddToken(Tabulate(docs, bag), f) == Tabulate(docs, bag + multiset{f})
  {
    var c, c' := AddToken(Tabulate(docs, bag), f).count, Tabulate(docs, bag + multiset{f}).count;
    assert c.Keys == c'.Keys;
    assert forall g :: g in c ==> c[g] == c'[g];
  }

  /** The inner training loop: one labelled row's tokens go into its class and into the vocabulary. */
  method CountTokens(tokens: seq<string>, c: ClassCounts, vocab: set<string>, ghost bag: multiset<string>)
    returns (c': ClassCounts, vocab': set<string>)
    requires c == Tabulate(c.docs, bag)
    ensures c' == Tabulate(c.docs, bag + multiset(tokens))
    ensures forall f :: f in vocab' <==> f in vocab || f in tokens
  {
    c', vocab' := c, vocab;
    assert bag == bag + multiset(tokens[..0]);
    for j := 0 to |tokens|
      invariant c' == Tabulate(c.docs, bag + multiset(tokens[..j]))
      invariant forall f :: f in vocab' <==> f in vocab || f in tokens[..j]
    {
      AddTokenTabulates(c.docs, bag + multiset(tokens[..j]), tokens[j]);
      assert tokens[..j + 1] == tokens[..j] + [tokens[j]];
      assert bag + multiset(tokens[..j + 1]) == bag + multiset(tokens[..j]) + multiset{tokens[j]};
      c' := AddToken(c', tokens[j]);
      vocab' := vocab' + {tokens[j]};
    }
    assert tokens[..|tokens|] == tokens;
  }

  /** What one more row does to one class of the table. */
  lemma ClassAppend(rows: seq<Observation>, o: Observation, feats: Extractor, l: Label)
    ensures LabelOf(o.verdict) != l ==>
              Docs(rows + [o], l) == Docs(rows, l) && Bag(rows + [o], feats, l) == Bag(rows, feats, l)
    ensures LabelOf(o.verdict) == l ==>
            Docs(rows + [o], l) == Docs(rows, l) + 1
              && Bag(rows + [o], feats, l) == Bag(rows, feats, l) + multiset(feats(o))
  {
    CountsAppend(rows, [o], feats, l);
    CountsOfOne(o, feats, l);
  }

  lemma VocabAppend(rows: seq<Observation>, o: Observation, feats: Extractor, vocab: set<string>)
    requires LabelOf(o.verdict) != Unlabeled
    requires forall f :: f in vocab <==> f in VocabOf(rows, feats) || f in feats(o)
    ensures vocab == VocabOf(rows + [o], feats)
  {
    ClassAppend(rows, o, feats, Negative);
    ClassAppend(rows, o, feats, Positive);
    forall f
      ensures f in vocab <==> f in VocabOf(rows + [o], feats)
    {
      assert f in feats(o) <==> f in multiset(feats(o));
    }
  }

  /** The outer loop's body: one row goes into the table of the rows before it. */
  method CountRow(ghost rows: seq<Observation>, o: Observation, feats: Extractor, m: Model) returns (m': Model)
    requires m == ModelOf(rows, feats)
    ensures m' == ModelOf(rows + [o], feats)
  {
    ClassAppend(rows, o, feats, Negative);
    ClassAppend(rows, o, feats, Positive);
    match LabelOf(o.verdict)
    case Unlabeled =>
      m' := m;
    case Negative =>
      var c, vocab :=
        CountTokens(feats(o), m.negative.(docs := m.negative.docs + 1), m.vocab, Bag(rows, feats, Negative));
      VocabAppend(rows, o, feats, vocab);
      m' := m.(negative := c, vocab := vocab);
    case Positive =>
      var c, vocab :=
        CountTokens(feats(o), m.positive.(docs := m.positive.docs + 1), m.vocab, Bag(rows, feats, Positive));
      VocabAppend(rows, o, feats, vocab);
      m' := m.(positive := c, vocab := vocab);
  }

  /** trainWith: the loop builds exactly the table of the labelled rows. */
  method TrainWith(obs: seq<Observation>, feats: Extractor) returns (m: Model)
    ensures m == ModelOf(obs, feats)
  {
    m := Model(ClassCounts(0, 0, map[]), ClassCounts(0, 0, map[]), {}, feats);
    for i := 0 to |obs|
      invariant m == ModelOf(obs[..i], feats)
    {
      assert obs[..i + 1] == obs[..i] + [obs[i]];
      m := CountRow(obs[..i], obs[i], feats, m);
    }
    assert obs[..|obs|] == obs;
  }

  // ---------------------------------------------------------------- laws of training

  lemma DocsWithout(rows: seq<Observation>, i: nat, l: Label)
    requires i < |rows|
    ensures Docs(rows, l) == Docs([rows[i]], l) + Docs(rows[..i] + rows[i + 1..], l)
  {
    assert rows == rows[..i] + ([rows[i]] + rows[i + 1..]);
    DocsAppend(rows[..i], [rows[i]] + rows[i + 1..], l);
    DocsAppend([rows[i]], rows[i + 1..], l);
    DocsAppend(rows[..i], rows[i + 1..], l);
  }

  lemma BagWithout(rows: seq<Observation>, i: nat, feats: Extractor, l: Label)
    requires i < |rows|
    ensures Bag(rows, feats, l) == Bag([rows[i]], feats, l) + Bag(rows[..i] + rows[i + 1..], feats, l)
  {
    assert rows == rows[..i] + ([rows[i]] + rows[i + 1..]);
    BagAppend(rows[..i], [rows[i]] + rows[i + 1..], feats, l);
    BagAppend([rows[i]], rows[i + 1..], feats, l);
    BagAppend(rows[..i], rows[i + 1..], feats, l);
  }

  lemma {:induction false} CountsPermutation(rows: seq<Observation>, rows': seq<Observation>, feats: Extractor,
                                             l: Label)
    requires multiset(rows) == multiset(rows')
    ensures Docs(rows, l) == Docs(rows', l) && Bag(rows, feats, l) == Bag(rows', feats, l)
    decreases |rows|
  {
    if rows == [] {
      assert |multiset(rows')| == 0;
    } else {
      var i := PermutationTail(rows, rows');
      CountsPermutation(rows[1..], rows'[..i] + rows'[i + 1..], feats, l);
      DocsWithout(rows', i, l);
      BagWithout(rows', i, feats, l);
      CountsOfOne(rows[0], feats, l);
    }
  }

  /** Training does not depend on the order of the rows. */
  lemma TrainingIgnoresOrder(rows: seq<Observation>, rows': seq<Observation>, feats: Extractor)
    requires multiset(rows) == multiset(rows')
    ensures ModelOf(rows, feats) == ModelOf(rows', feats)
  {
    CountsPermutation(rows, rows', feats, Negative);
    CountsPermutation(rows, rows', feats, Positive);
  }

  /** keys lists the elements of s, each once. */
  ghost predicate Enumerates(keys: seq<string>, s: set<string>) {
    multiset(keys) == multiset(s)
  }

  function SumCounts(keys: seq<string>, count: map<string, nat>): nat {
    if keys == [] then 0 else (if keys[0] in count then count[keys[0]] else 0) + SumCounts(keys[1..], count)
  }

  function SumBag(keys: seq<string>, bag: multiset<string>): nat {
    if keys == [] then 0 else bag[keys[0]] + SumBag(keys[1..], bag)
  }

  lemma {:induction false} SumBagWithout(keys: seq<string>, bag: multiset<string>, f: string)
    requires f !in keys
    ensures SumBag(keys, bag[f := 0]) == SumBag(keys, bag)
  {
    if keys == [] {
    } else {
      SumBagWithout(keys[1..], bag, f);
    }
  }

  lemma {:induction false} SumBagIsSize(keys: seq<string>, bag: multiset<string>)
    requires forall f :: f in keys ==> multiset(keys)[f] == 1
    requires forall f :: f in bag ==> f in keys
    ensures SumBag(keys, bag) == |bag|
  {
    if keys == [] {
      assert bag == multiset{};
    } else {
      var f := keys[0];
      assert keys == [f] + keys[1..];
      assert f in keys && multiset(keys) == multiset{f} + multiset(keys[1..]);
      assert f !in multiset(keys[1..]);
      assert forall g :: g in keys[1..] ==> multiset(keys)[g] == multiset(keys[1..])[g];
      SumBagIsSize(keys[1..], bag[f := 0]);
      SumBagWithout(keys[1..], bag, f);
    }
  }

  lemma {:induction false} SumCountsIsSumBag(keys: seq<string>, docs: nat, bag: multiset<string>)
    ensures SumCounts(keys, Tabulate(docs, bag).count) == SumBag(keys, bag)
  {
    if keys == [] {
    } else {
      SumCountsIsSumBag(keys[1..], docs, bag);
    }
  }

  /** classFeat is the sum of featCount, and vocab the union of its keys. */
  lemma TotalsAgree(rows: seq<Observation>, feats: Extractor, positive: bool, keys: seq<string>)
    requires Enumerates(keys, ModelOf(rows, feats).vocab)
    ensures SumCounts(keys, ModelOf(rows, feats).Class(positive).count) == ModelOf(rows, feats).Class(positive).total
    ensures ModelOf(rows, feats).vocab
            == ModelOf(rows, feats).negative.count.Keys + ModelOf(rows, feats).positive.count.Keys
  {
    var m := ModelOf(rows, feats);
    var l := if positive then Positive else Negative;
    var bag := Bag(rows, feats, l);
    BagIsListed(rows, feats, l, keys);
    SumBagIsSize(keys, bag);
    SumCountsIsSumBag(keys, Docs(rows, l), bag);
  }

  lemma BagIsListed(rows: seq<Observation>, feats: Extractor, l: Label, keys: seq<string>)
    requires Enumerates(keys, ModelOf(rows, feats).vocab) && l != Unlabeled
    ensures forall f :: f in Bag(rows, feats, l) ==> f in keys
  {
    assert forall f :: f in keys <==> f in multiset(keys);
  }

  // ---------------------------------------------------------------- smoothed likelihoods

  /** P(f | class) with add-one smoothing. */
  function Likelihood(m: Model, positive: bool, f: string): real
    requires m.vocab != {}
  {
    ((if f in m.Class(positive).count then m.Class(positive).count[f] else 0) as real + 1.0)
    / (m.Class(positive).total as real + |m.vocab| as real)
  }

  function SumLikelihood(m: Model, positive: bool, keys: seq<string>): real
    requires m.vocab != {}
  {
    if keys == [] then 0.0 else Likelihood(m, positive, keys[0]) + SumLikelihood(m, positive, keys[1..])
  }

  lemma {:induction false} CommonDenominator(m: Model, positive: bool, keys: seq<string>)
    requires m.vocab != {}
    ensures SumLikelihood(m, positive, keys)
         == (SumCounts(keys, m.Class(positive).count) + |keys|) as real
          / (m.Class(positive).total as real + |m.vocab| as real)
  {
    var n := m.Class(positive).total as real + |m.vocab| as real;
    assert |m.vocab| > 0;
    if keys == [] {
    } else {
      CommonDenominator(m, positive, keys[1..]);
      var c := if keys[0] in m.Class(positive).count then m.Class(positive).count[keys[0]] else 0;
      NextFraction(c, SumCounts(keys[1..], m.Class(positive).count), |keys[1..]|, n);
    }
  }

  lemma NextFraction(c: nat, counts: nat, keys: nat, n: real)
    requires n > 0.0
    ensures (c as real + 1.0) / n + (counts + keys) as real / n == (c + counts + (keys + 1)) as real / n
  {
    AddFractions(c as real + 1.0, (counts + keys) as real, n);
  }

  lemma AddFractions(a: real, b: real, n: real)
    requires n > 0.0
    ensures a / n + b / n == (a + b) / n
  {
  }

  lemma SumToOne(m: Model, positive: bool, keys: seq<string>)
    requires m.vocab != {} && |keys| == |m.vocab|
    requires SumCounts(keys, m.Class(positive).count) == m.Class(positive).total
    ensures SumLikelihood(m, positive, keys) == 1.0
  {
    CommonDenominator(m, positive, keys);
    assert |m.vocab| > 0;
    WholeIsOne(m.Class(positive).total, |m.vocab|);
  }

  lemma WholeIsOne(a: nat, b: nat)
    requires b > 0
    ensures (a + b) as real / (a as real + b as real) == 1.0
  {
    assert (a + b) as real == a as real + b as real;
  }

  /** Over a non-empty vocabulary the smoothed likelihoods of each class are a distribution. */
  lemma LikelihoodsSumToOne(rows: seq<Observation>, feats: Extractor, positive: bool, keys: seq<string>)
    requires Enumerates(keys, ModelOf(rows, feats).vocab) && ModelOf(rows, feats).vocab != {}
    ensures SumLikelihood(ModelOf(rows, feats), positive, keys) == 1.0
  {
    EnumerationLength(keys, ModelOf(rows, feats).vocab);
    TotalsAgree(rows, feats, positive, keys);
    SumToOne(ModelOf(rows, feats), positive, keys);
  }

  lemma EnumerationLength(keys: seq<string>, s: set<string>)
    requires Enumerates(keys, s)
    ensures |keys| == |s|
  {
    assert |keys| == |multiset(keys)| == |multiset(s)|;
  }

  // ---------------------------------------------------------------- scoring in log space

  /** Natural logarithm and exponential, known only by their laws. */
  datatype LogExp = LogExp(log: real -> real, exp: real -> real)

  ghost predicate ExpAdds(lx: LogExp, a: real, b: real) {
    lx.exp(a + b) == lx.exp(a) * lx.exp(b)
  }

  ghost predicate IsLogExp(lx: LogExp) {
    && lx.exp(0.0) == 1.0
    && (forall x :: lx.exp(x) > 0.0)
    && (forall a, b :: ExpAdds(lx, a, b))
    && (forall x :: x > 0.0 ==> lx.exp(lx.log(x)) == x)
  }

  function LogProb(m: Model, lx: LogExp, positive: bool, f: string): real {
    lx.log((if f in m.Class(positive).count then m.Class(positive).count[f] else 0) as real + 1.0)
    - lx.log(m.Class(positive).total as real + |m.vocab| as real)
  }

  /** The sum of w over the tokens that are known. */
  function SumOver(w: string -> real, known: set<string>, tokens: seq<string>): real {
    if tokens == [] then 0.0
    else
      var last := tokens[|tokens| - 1];
      SumOver(w, known, tokens[..|tokens| - 1]) + (if last in known then w(last) else 0.0)
  }

  function LogProbs(m: Model, lx: LogExp, positive: bool): string -> real {
    f => LogProb(m, lx, positive, f)
  }

  /** What Score accumulates for one class; tokens outside the vocabulary are skipped. */
  function LogSum(m: Model, lx: LogExp, positive: bool, tokens: seq<string>): real {
    SumOver(LogProbs(m, lx, positive), m.vocab, tokens)
  }

  function PositiveProbability(lx: LogExp, logPos: real, logNeg: real): (p: real)
    requires IsLogExp(lx)
    ensures 0.0 < p < 1.0
  {
    if logPos >= logNeg then
      Odds(lx.exp(logNeg - logPos));
      1.0 / (1.0 + lx.exp(logNeg - logPos))
    else
      Odds(lx.exp(logPos - logNeg));
      lx.exp(logPos - logNeg) / (1.0 + lx.exp(logPos - logNeg))
  }

  lemma Odds(r: real)
    requires r > 0.0
    ensures 0.0 < 1.0 / (1.0 + r) < 1.0 && 0.0 < r / (1.0 + r) < 1.0
    ensures r / (1.0 + r) == 1.0 - 1.0 / (1.0 + r)
  {
    var q := 1.0 / (1.0 + r);
    assert q * (1.0 + r) == 1.0;
    var p := r / (1.0 + r);
    assert p * (1.0 + r) == r;
  }

  /** One feature's pull on the score: towards real when positive, towards false positive when negative. */
  datatype Contribution = Contribution(feature: string, weight: real)

  datatype Result = Result(priority: int, prob: real, trained: bool, top: seq<Contribution>)

  function Pull(m: Model, lx: LogExp, f: string): Contribution {
    Contribution(f, LogProb(m, lx, true, f) - LogProb(m, lx, false, f))
  }

  /** The pulls of the known features, in order. */
  function Contributions(m: Model, lx: LogExp, tokens: seq<string>): seq<Contribution> {
    if tokens == [] then []
    else
      var last := tokens[|tokens| - 1];
      Contributions(m, lx, tokens[..|tokens| - 1]) + (if last in m.vocab then [Pull(m, lx, last)] else [])
  }

  function Strength(c: Contribution): real {
    if c.weight < 0.0 then -c.weight else c.weight
  }

  ghost predicate Descending(s: seq<Contribution>) {
    forall j, k :: 0 <= j < k < |s| ==> Strength(s[j]) >= Strength(s[k])
  }

  function InsertByStrength(s: seq<Contribution>, c: Contribution): seq<Contribution> {
    if s == [] || Strength(c) >= Strength(s[0]) then [c] + s else [s[0]] + InsertByStrength(s[1..], c)
  }

  /** The library's sort, by strength. */
  function SortByStrength(s: seq<Contribution>): seq<Contribution> {
    if s == [] then [] else InsertByStrength(SortByStrength(s[1..]), s[0])
  }

  lemma {:induction false} InsertKeepsPulls(s: seq<Contribution>, c: Contribution)
    ensures multiset(InsertByStrength(s, c)) == multiset(s) + multiset{c}
  {
    if s == [] || Strength(c) >= Strength(s[0]) {
    } else {
      InsertKeepsPulls(s[1..], c);
      assert s == [s[0]] + s[1..];
    }
  }

  lemma {:induction false} InsertKeepsDescending(s: seq<Contribution>, c: Contribution)
    requires Descending(s)
    ensures Descending(InsertByStrength(s, c))
  {
    if s == [] || Strength(c) >= Strength(s[0]) {
    } else {
      var rest := InsertByStrength(s[1..], c);
      InsertKeepsDescending(s[1..], c);
      InsertKeepsPulls(s[1..], c);
      forall k | 0 <= k < |rest|
        ensures Strength(s[0]) >= Strength(rest[k])
      {
        assert rest[k] in multiset(rest);
      }
    }
  }

  lemma {:induction false} SortsByStrength(s: seq<Contribution>)
    ensures Descending(SortByStrength(s)) && multiset(SortByStrength(s)) == multiset(s)
  {
    if s == [] {
    } else {
      SortsByStrength(s[1..]);
      InsertKeepsDescending(SortByStrength(s[1..]), s[0]);
      InsertKeepsPulls(SortByStrength(s[1..]), s[0]);
      assert s == [s[0]] + s[1..];
    }
  }

  const MAX_TOP := 5

  /** top is all, or the five strongest of all, strongest first; what is left out is no stronger. */
  ghost predicate ShowsStrongest(top: seq<Contribution>, all: seq<Contribution>) {
    exists rest :: multiset(top + rest) == multiset(all) && Descending(top + rest)
                   && |top| == if |all| > MAX_TOP then MAX_TOP else |all|
  }

  lemma FirstFive(sorted: seq<Contribution>, all: seq<Contribution>)
    requires Descending(sorted) && multiset(sorted) == multiset(all)
    ensures ShowsStrongest(if |sorted| > MAX_TOP then sorted[..MAX_TOP] else sorted, all)
  {
    assert |sorted| == |multiset(sorted)| == |multiset(all)| == |all|;
    if |sorted| > MAX_TOP {
      assert sorted == sorted[..MAX_TOP] + sorted[MAX_TOP..];
    } else {
      assert sorted == sorted + [];
    }
  }

  /** All contributions are shown, or five of them, and then no other is further from zero than one shown. */
  lemma HiddenIsNoStronger(top: seq<Contribution>, all: seq<Contribution>, shown: Contribution, hidden: Contribution)
    requires ShowsStrongest(top, all) && shown in top && hidden in all && hidden !in top
    ensures |top| == 5 < |all|
    ensures hidden.weight <= shown.weight || hidden.weight <= -shown.weight
    ensures -hidden.weight <= shown.weight || -hidden.weight <= -shown.weight
  {
    var rest :| multiset(top + rest) == multiset(all) && Descending(top + rest)
                && |top| == if |all| > MAX_TOP then MAX_TOP else |all|;
    assert hidden in multiset(top + rest);
    assert |multiset(top + rest)| == |top + rest| == |all|;
    var j :| 0 <= j < |top| && top[j] == shown;
    var k :| 0 <= k < |rest| && rest[k] == hidden;
    assert (top + rest)[j] == shown && (top + rest)[|top| + k] == hidden;
  }

  /** What is shown comes with the furthest from zero first. */
  lemma StrongestFirst(top: seq<Contribution>, all: seq<Contribution>, j: nat, k: nat)
    requires ShowsStrongest(top, all) && j < k < |top|
    ensures top[k].weight <= top[j].weight || top[k].weight <= -top[j].weight
    ensures -top[k].weight <= top[j].weight || -top[k].weight <= -top[j].weight
  {
    var rest :| multiset(top + rest) == multiset(all) && Descending(top + rest);
    assert (top + rest)[j] == top[j] && (top + rest)[k] == top[k];
  }

  /** Every known token contributes under its own name, and nothing else does; e to the contribution is the
      ratio of its two likelihoods. */
  lemma {:induction false} ContributionsAreRatios(m: Model, lx: LogExp, tokens: seq<string>, f: string, c: Contribution)
    requires IsLogExp(lx) && m.vocab != {}
    ensures f in tokens && f in m.vocab ==> exists d :: d in Contributions(m, lx, tokens) && d.feature == f
    ensures c in Contributions(m, lx, tokens) ==>
              c.feature in tokens && c.feature in m.vocab
              && lx.exp(c.weight) * Likelihood(m, false, c.feature) == Likelihood(m, true, c.feature)
  {
    if tokens == [] {
    } else {
      var init, last := tokens[..|tokens| - 1], tokens[|tokens| - 1];
      ContributionsAreRatios(m, lx, init, f, c);
      assert tokens == init + [last];
      PullIsRatio(m, lx, last);
      if last in m.vocab {
        assert Pull(m, lx, last) in Contributions(m, lx, tokens) && Pull(m, lx, last).feature == last;
      }
    }
  }

  lemma PullIsRatio(m: Model, lx: LogExp, f: string)
    requires IsLogExp(lx) && m.vocab != {}
    ensures lx.exp(Pull(m, lx, f).weight) * Likelihood(m, false, f) == Likelihood(m, true, f)
  {
    ExpOfLogProb(m, lx, true, f);
    ExpOfLogProb(m, lx, false, f);
    ExpOfDifference(lx, LogProb(m, lx, true, f), LogProb(m, lx, false, f));
  }

  function SumWeights(s: seq<Contribution>): real {
    if s == [] then 0.0 else SumWeights(s[..|s| - 1]) + s[|s| - 1].weight
  }

  /** The contributions account for the whole score: they add up to the log of the odds. */
  lemma {:induction false} ContributionsAddUp(m: Model, lx: LogExp, tokens: seq<string>)
    ensures SumWeights(Contributions(m, lx, tokens)) == LogSum(m, lx, true, tokens) - LogSum(m, lx, false, tokens)
  {
    if tokens == [] {
    } else {
      var init, last := tokens[..|tokens| - 1], tokens[|tokens| - 1];
      var before := Contributions(m, lx, init);
      ContributionsAddUp(m, lx, init);
      if last in m.vocab {
        assert (before + [Pull(m, lx, last)])[..|before|] == before;
      } else {
        assert before + [] == before;
      }
    }
  }

  /** The priority, the probability, and the strongest contributions; without both classes, the rule's static score. */
  method Score(m: Model, lx: LogExp, o: Observation) returns (r: Result)
    requires IsLogExp(lx)
    ensures r.trained == m.Trained()
    ensures !r.trained ==> r.priority == o.score && r.prob == o.score as real / 100.0 && r.top == []
    ensures r.trained ==>
              r.prob == Prob(m, lx, o) && r.priority == (r.prob * 100.0 + 0.5).Floor && 0 <= r.priority <= 100
    ensures r.trained ==> ShowsStrongest(r.top, Contributions(m, lx, m.feats(o)))
  {
    if !m.Trained() {
      return Result(o.score, o.score as real / 100.0, false, []);
    }
    var tokens := m.feats(o);
    var logPos, logNeg, contribs := 0.0, 0.0, [];
    for i := 0 to |tokens|
      invariant logPos == LogSum(m, lx, true, tokens[..i]) && logNeg == LogSum(m, lx, false, tokens[..i])
      invariant contribs == Contributions(m, lx, tokens[..i])
    {
      assert tokens[..i + 1][..i] == tokens[..i];
      if tokens[i] in m.vocab {
        var lp, ln := LogProb(m, lx, true, tokens[i]), LogProb(m, lx, false, tokens[i]);
        logPos, logNeg := logPos + lp, logNeg + ln;
        contribs := contribs + [Contribution(tokens[i], lp - ln)];
      }
    }
    assert tokens[..|tokens|] == tokens;
    var p := PositiveProbability(lx, logPos, logNeg);
    var sorted := SortByStrength(contribs);
    SortsByStrength(contribs);
    FirstFive(sorted, contribs);
    r := Result((p * 100.0 + 0.5).Floor, p, true, if |sorted| > MAX_TOP then sorted[..MAX_TOP] else sorted);
  }

  /** The probability a trained model gives an observation. */
  function Prob(m: Model, lx: LogExp, o: Observation): real
    requires IsLogExp(lx)
  {
    PositiveProbability(lx, LogSum(m, lx, true, m.feats(o)), LogSum(m, lx, false, m.feats(o)))
  }

  /** The product of w over the tokens that are known. */
  function ProductOver(w: string -> real, known: set<string>, tokens: seq<string>): real {
    if tokens == [] then 1.0
    else
      var last := tokens[|tokens| - 1];
      ProductOver(w, known, tokens[..|tokens| - 1]) * (if last in known then w(last) else 1.0)
  }

  function Likelihoods(m: Model, positive: bool): string -> real
    requires m.vocab != {}
  {
    f => Likelihood(m, positive, f)
  }

  /** The likelihood of a token list under one class. */
  function Product(m: Model, positive: bool, tokens: seq<string>): real
    requires m.vocab != {}
  {
    ProductOver(Likelihoods(m, positive), m.vocab, tokens)
  }

  lemma ExpOfDifference(lx: LogExp, a: real, b: real)
    requires IsLogExp(lx)
    ensures lx.exp(a - b) * lx.exp(b) == lx.exp(a)
  {
    assert ExpAdds(lx, a - b, b);
    assert a - b + b == a;
  }

  lemma ExpOfSum(lx: LogExp, a: real, b: real, x: real, y: real)
    requires IsLogExp(lx) && lx.exp(a) == x && lx.exp(b) == y
    ensures lx.exp(a + b) == x * y
  {
    assert ExpAdds(lx, a, b);
  }

  lemma ExpOfLogProb(m: Model, lx: LogExp, positive: bool, f: string)
    requires IsLogExp(lx) && m.vocab != {}
    ensures lx.exp(LogProb(m, lx, positive, f)) == Likelihood(m, positive, f)
  {
    assert |m.vocab| > 0;
    var a := (if f in m.Class(positive).count then m.Class(positive).count[f] else 0) as real + 1.0;
    var b := m.Class(positive).total as real + |m.vocab| as real;
    ExpOfDifference(lx, lx.log(a), lx.log(b));
    DivideBy(lx.exp(lx.log(a) - lx.log(b)), a, b);
  }

  lemma DivideBy(q: real, a: real, b: real)
    requires b > 0.0 && q * b == a
    ensures q == a / b
  {
  }

  lemma {:induction false} ExpOfSumOver(lx: LogExp, w: string -> real, v: string -> real, known: set<string>,
                                        tokens: seq<string>)
    requires IsLogExp(lx)
    requires forall f :: f in known ==> lx.exp(w(f)) == v(f)
    ensures lx.exp(SumOver(w, known, tokens)) == ProductOver(v, known, tokens)
  {
    if tokens == [] {
    } else {
      var init, f := tokens[..|tokens| - 1], tokens[|tokens| - 1];
      ExpOfSumOver(lx, w, v, known, init);
      ExpOfSum(lx, SumOver(w, known, init), if f in known then w(f) else 0.0,
               ProductOver(v, known, init), if f in known then v(f) else 1.0);
    }
  }

  lemma ExpOfLogSum(m: Model, lx: LogExp, positive: bool, tokens: seq<string>)
    requires IsLogExp(lx) && m.vocab != {}
    ensures lx.exp(LogSum(m, lx, positive, tokens)) == Product(m, positive, tokens)
  {
    var w, v := LogProbs(m, lx, positive), Likelihoods(m, positive);
    forall f | f in m.vocab
      ensures lx.exp(w(f)) == v(f)
    {
      ExpOfLogProb(m, lx, positive, f);
    }
    ExpOfSumOver(lx, w, v, m.vocab, tokens);
  }

  /** The log-space computation is the posterior under a flat prior: P(pos) / (P(pos) + P(neg)). */
  lemma ScoreIsPosterior(m: Model, lx: LogExp, o: Observation)
    requires IsLogExp(lx) && m.vocab != {}
    ensures Product(m, true, m.feats(o)) > 0.0 && Product(m, false, m.feats(o)) > 0.0
    ensures Prob(m, lx, o)
         == Product(m, true, m.feats(o)) / (Product(m, true, m.feats(o)) + Product(m, false, m.feats(o)))
  {
    ExpOfLogSum(m, lx, true, m.feats(o));
    ExpOfLogSum(m, lx, false, m.feats(o));
    PosteriorOf(lx, LogSum(m, lx, true, m.feats(o)), LogSum(m, lx, false, m.feats(o)));
  }

  /** The smallest training set: one finding confirmed, one dismissed, each with a feature of its own. A finding
      with the confirmed one's feature is real with probability two thirds, with the other's one third. */
  lemma OneOfEachScores(p: Observation, q: Observation, feats: Extractor, lx: LogExp, a: string, b: string,
                        o: Observation)
    requires IsLogExp(lx) && a != b && feats(p) == [a] && feats(q) == [b]
    requires p.verdict == "true_positive" && q.verdict == "false_positive"
    ensures feats(o) == [a] ==> Prob(ModelOf([p, q], feats), lx, o) == 2.0 / 3.0
    ensures feats(o) == [b] ==> Prob(ModelOf([p, q], feats), lx, o) == 1.0 / 3.0
  {
    OneOfEachModel(p, q, feats, a, b);
    if feats(o) == [a] {
      OneFeatureScores(ModelOf([p, q], feats), lx, o, a, a, b);
    } else if feats(o) == [b] {
      OneFeatureScores(ModelOf([p, q], feats), lx, o, b, a, b);
    }
  }

  lemma OneFeatureScores(m: Model, lx: LogExp, o: Observation, f: string, a: string, b: string)
    requires IsLogExp(lx) && a != b && (f == a || f == b) && m.feats(o) == [f]
    requires m.negative == ClassCounts(1, 1, map[b := 1]) && m.positive == ClassCounts(1, 1, map[a := 1])
    requires m.vocab == {a, b}
    ensures Prob(m, lx, o) == if f == a then 2.0 / 3.0 else 1.0 / 3.0
  {
    ScoreIsPosterior(m, lx, o);
    ProductOfOne(m, true, f);
    ProductOfOne(m, false, f);
    assert |m.vocab| == 2;
  }

  lemma OneOfEachCounts(p: Observation, q: Observation, feats: Extractor, l: Label, f: string)
    requires LabelOf(p.verdict) != l && LabelOf(q.verdict) == l && feats(q) == [f]
    ensures ClassOf([p, q], feats, l) == ClassCounts(1, 1, map[f := 1]) == ClassOf([q, p], feats, l)
    ensures Bag([p, q], feats, l) == multiset{f} == Bag([q, p], feats, l)
  {
    CountsOfOne(p, feats, l);
    CountsOfOne(q, feats, l);
    CountsAppend([p], [q], feats, l);
    CountsAppend([q], [p], feats, l);
    assert [p] + [q] == [p, q] && [q] + [p] == [q, p];
    assert multiset([f]) == multiset{f} && |multiset{f}| == 1;
    TabulateOne(f);
  }

  lemma TabulateOne(f: string)
    ensures Tabulate(1, multiset{f}) == ClassCounts(1, 1, map[f := 1])
  {
    assert |multiset{f}| == 1;
  }

  lemma OneOfEachModel(p: Observation, q: Observation, feats: Extractor, a: string, b: string)
    requires a != b && feats(p) == [a] && feats(q) == [b]
    requires p.verdict == "true_positive" && q.verdict == "false_positive"
    ensures ModelOf([p, q], feats)
            == Model(ClassCounts(1, 1, map[b := 1]), ClassCounts(1, 1, map[a := 1]), {a, b}, feats)
  {
    OneOfEachCounts(p, q, feats, Negative, b);
    OneOfEachCounts(q, p, feats, Positive, a);
  }

  lemma ProductOfOne(m: Model, positive: bool, f: string)
    requires f in m.vocab
    ensures Product(m, positive, [f]) == Likelihood(m, positive, f)
  {
    assert [f][..0] == [];
    assert ProductOver(Likelihoods(m, positive), m.vocab, []) == 1.0;
  }

  /** With nothing known about a finding the priority is the midpoint. */
  lemma NoEvidenceScoresHalf(m: Model, lx: LogExp, o: Observation)
    requires IsLogExp(lx)
    requires forall f :: f in m.feats(o) ==> f !in m.vocab
    ensures Prob(m, lx, o) == 0.5
  {
    SumOfUnknown(LogProbs(m, lx, true), m.vocab, m.feats(o));
    SumOfUnknown(LogProbs(m, lx, false), m.vocab, m.feats(o));
  }

  lemma {:induction false} SumOfUnknown(w: string -> real, known: set<string>, tokens: seq<string>)
    requires forall f :: f in tokens ==> f !in known
    ensures SumOver(w, known, tokens) == 0.0
  {
    if tokens == [] {
    } else {
      SumOfUnknown(w, known, tokens[..|tokens| - 1]);
    }
  }

  lemma PosteriorOf(lx: LogExp, p: real, n: real)
    requires IsLogExp(lx)
    ensures PositiveProbability(lx, p, n) == lx.exp(p) / (lx.exp(p) + lx.exp(n))
  {
    ExpOfDifference(lx, n, p);
    ExpOfDifference(lx, p, n);
    if p >= n {
      OddsToShare(lx.exp(n - p), lx.exp(p), lx.exp(n));
    } else {
      OddsToShare(lx.exp(p - n), lx.exp(n), lx.exp(p));
    }
  }

  lemma OddsToShare(r: real, x: real, y: real)
    requires r > 0.0 && x > 0.0 && y > 0.0 && r * x == y
    ensures 1.0 / (1.0 + r) == x / (x + y) && r / (1.0 + r) == y / (y + x)
  {
    assert (1.0 + r) * x == x + y;
    DivideBy(1.0 / (1.0 + r), x, x + y) by { Cancel(1.0 + r, x); }
    DivideBy(r / (1.0 + r), y, y + x) by { assert r / (1.0 + r) == r * (1.0 / (1.0 + r)); Cancel(1.0 + r, x); }
  }

  lemma Cancel(s: real, x: real)
    requires s > 0.0
    ensures 1.0 / s * (s * x) == x
  {
    assert 1.0 / s * s == 1.0;
  }

  // ---------------------------------------------------------------- swapping the verdicts

  function SwapVerdict(o: Observation): Observation {
    match LabelOf(o.verdict)
    case Positive => o.(verdict := "false_positive")
    case Negative => o.(verdict := "true_positive")
    case Unlabeled => o
  }

  function SwapVerdicts(rows: seq<Observation>): seq<Observation> {
    if rows == [] then [] else [SwapVerdict(rows[0])] + SwapVerdicts(rows[1..])
  }

  function Opposite(l: Label): Label {
    match l case Positive => Negative case Negative => Positive case Unlabeled => Unlabeled
  }

  /** Labels are never features. */
  ghost predicate IgnoresVerdict(feats: Extractor) {
    forall o :: feats(SwapVerdict(o)) == feats(o)
  }

  lemma {:induction false} SwappedCounts(rows: seq<Observation>, feats: Extractor, l: Label)
    requires IgnoresVerdict(feats)
    ensures Docs(SwapVerdicts(rows), l) == Docs(rows, Opposite(l))
    ensures Bag(SwapVerdicts(rows), feats, l) == Bag(rows, feats, Opposite(l))
  {
    if rows == [] {
    } else {
      SwappedCounts(rows[1..], feats, l);
      assert SwapVerdicts(rows)[1..] == SwapVerdicts(rows[1..]);
      assert SwapVerdicts(rows)[0] == SwapVerdict(rows[0]);
      assert feats(SwapVerdict(rows[0])) == feats(rows[0]);
    }
  }

  lemma {:induction false} SumOverEqual(w: string -> real, w': string -> real, known: set<string>, tokens: seq<string>)
    requires forall f :: w(f) == w'(f)
    ensures SumOver(w, known, tokens) == SumOver(w', known, tokens)
  {
    if tokens == [] {
    } else {
      SumOverEqual(w, w', known, tokens[..|tokens| - 1]);
    }
  }

  lemma SwappedLogSum(m: Model, m': Model, lx: LogExp, positive: bool, tokens: seq<string>)
    requires m'.vocab == m.vocab && m'.positive == m.negative && m'.negative == m.positive
    ensures LogSum(m', lx, positive, tokens) == LogSum(m, lx, !positive, tokens)
  {
    SumOverEqual(LogProbs(m', lx, positive), LogProbs(m, lx, !positive), m.vocab, tokens);
  }

  /** Training on the opposite verdicts turns the probability p of every observation into 1 - p. */
  lemma SwappedVerdictsComplementScore(rows: seq<Observation>, feats: Extractor, lx: LogExp, o: Observation)
    requires IgnoresVerdict(feats) && IsLogExp(lx)
    ensures ModelOf(SwapVerdicts(rows), feats).Trained() == ModelOf(rows, feats).Trained()
    ensures Prob(ModelOf(SwapVerdicts(rows), feats), lx, o) == 1.0 - Prob(ModelOf(rows, feats), lx, o)
  {
    var m, m' := ModelOf(rows, feats), ModelOf(SwapVerdicts(rows), feats);
    SwappedCounts(rows, feats, Positive);
    SwappedCounts(rows, feats, Negative);
    assert m'.vocab == m.vocab;
    SwappedLogSum(m, m', lx, true, feats(o));
    SwappedLogSum(m, m', lx, false, feats(o));
    ComplementOf(lx, LogSum(m, lx, true, feats(o)), LogSum(m, lx, false, feats(o)));
  }

  lemma ComplementOf(lx: LogExp, p: real, n: real)
    requires IsLogExp(lx)
    ensures PositiveProbability(lx, n, p) == 1.0 - PositiveProbability(lx, p, n)
  {
    Odds(lx.exp(n - p));
    Odds(lx.exp(p - n));
    if p == n { assert p - n == 0.0; }
  }
}
