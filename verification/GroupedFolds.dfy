/** groupedFolds of internal/risk/model.go: whole groups are placed, greedily, on cross-validation folds. */
module GroupedFolds {
  import opened NaiveBayes
  import opened Sequences

  const SOURCE_LAB := "lab"

  /** The three kinds of group key, told apart in the source by the prefixes row:, lab: and host:. */
  datatype GroupKey = RowKey(row: nat) | LabKey(scene: string) | HostKey(host: string)

  function KeyOf(obs: seq<Observation>, i: nat): GroupKey
    requires i < |obs|
  {
    if obs[i].source == SOURCE_LAB && obs[i].scanID != "" then LabKey(obs[i].scanID)
    else if obs[i].hostID != "" then HostKey(obs[i].hostID)
    else RowKey(i)
  }

  /** Two findings of one unit: the same lab technique or scene, or the same fleet host. */
  predicate SameUnit(a: Observation, b: Observation) {
    var labA, labB := a.source == "lab" && a.scanID != "", b.source == "lab" && b.scanID != "";
    if labA || labB then labA && labB && a.scanID == b.scanID
    else a.hostID != "" && a.hostID == b.hostID
  }

  /** Two rows are in one group exactly when they are of one unit, or are the same row. */
  lemma GroupsAreUnits(obs: seq<Observation>, i: nat, j: nat)
    requires i < |obs| && j < |obs|
    ensures KeyOf(obs, i) == KeyOf(obs, j) <==> i == j || SameUnit(obs[i], obs[j])
  {
  }

  /** One counter per label: the source's [3]int. */
  datatype Tally = Tally(unlabeled: nat, negative: nat, positive: nat) {
    function Of(l: Label): nat {
      match l case Unlabeled => unlabeled case Negative => negative case Positive => positive
    }

    function Add(l: Label): Tally {
      match l
      case Unlabeled => this.(unlabeled := unlabeled + 1)
      case Negative => this.(negative := negative + 1)
      case Positive => this.(positive := positive + 1)
    }

    function Plus(t: Tally): Tally {
      Tally(unlabeled + t.unlabeled, negative + t.negative, positive + t.positive)
    }
  }

  const NONE := Tally(0, 0, 0)

  // ---------------------------------------------------------------- groups

  /** The rows below n that belong to group k, ascending. */
  function RowsOf(obs: seq<Observation>, k: GroupKey, n: nat): (rows: seq<nat>)
    requires n <= |obs|
    ensures InRange(rows, n)
  {
    if n == 0 then [] else RowsOf(obs, k, n - 1) + (if KeyOf(obs, n - 1) == k then [n - 1] else [])
  }

  lemma {:induction false} RowsOfMembers(obs: seq<Observation>, k: GroupKey, n: nat)
    requires n <= |obs|
    ensures forall i :: i in RowsOf(obs, k, n) <==> 0 <= i < n && KeyOf(obs, i) == k
  {
    if n == 0 {
    } else {
      RowsOfMembers(obs, k, n - 1);
    }
  }

  lemma NextRowListed(obs: seq<Observation>, k: GroupKey, n: nat)
    requires 0 < n <= |obs|
    ensures RowsOf(obs, k, n)
         == if KeyOf(obs, n - 1) == k then RowsOf(obs, k, n - 1) + [n - 1] else RowsOf(obs, k, n - 1)
  {
    assert RowsOf(obs, k, n - 1) + [] == RowsOf(obs, k, n - 1);
  }

  predicate InRange(rows: seq<nat>, n: nat) {
    forall j :: 0 <= j < |rows| ==> rows[j] < n
  }

  /** How many rows of each label are listed. */
  function TallyRows(obs: seq<Observation>, rows: seq<nat>): Tally
    requires InRange(rows, |obs|)
  {
    if rows == [] then NONE
    else TallyRows(obs, rows[..|rows| - 1]).Add(LabelOf(obs[rows[|rows| - 1]].verdict))
  }

  function GroupRows(obs: seq<Observation>, k: GroupKey): (rows: seq<nat>)
    ensures forall i :: i in rows <==> 0 <= i < |obs| && KeyOf(obs, i) == k
    ensures InRange(rows, |obs|)
  {
    RowsOfMembers(obs, k, |obs|);
    assert forall j :: 0 <= j < |RowsOf(obs, k, |obs|)| ==> RowsOf(obs, k, |obs|)[j] in RowsOf(obs, k, |obs|);
    RowsOf(obs, k, |obs|)
  }

  function GroupTally(obs: seq<Observation>, k: GroupKey): Tally {
    TallyRows(obs, GroupRows(obs, k))
  }

  function KeysBelow(obs: seq<Observation>, n: nat): (keys: set<GroupKey>)
    requires n <= |obs|
    ensures forall i :: 0 <= i < n ==> KeyOf(obs, i) in keys
  {
    if n == 0 then {} else KeysBelow(obs, n - 1) + {KeyOf(obs, n - 1)}
  }

  function Keys(obs: seq<Observation>): set<GroupKey> {
    KeysBelow(obs, |obs|)
  }

  /** keys lists every group once. */
  ghost predicate KeyOrder(obs: seq<Observation>, keys: seq<GroupKey>) {
    multiset(keys) == multiset(Keys(obs))
  }

  /** How many of the listed groups hold a row of label l. */
  function GroupsWith(obs: seq<Observation>, keys: seq<GroupKey>, l: Label): nat {
    if keys == [] then 0
    else GroupsWith(obs, keys[..|keys| - 1], l) + (if GroupTally(obs, keys[|keys| - 1]).Of(l) > 0 then 1 else 0)
  }

  // ---------------------------------------------------------------- greedy placement

  function Cost(group: Tally, load: Tally): nat {
    group.positive * load.positive + group.negative * load.negative
  }

  /** The first fold, among the first n, on which the group costs least. */
  function BestOf(group: Tally, loads: seq<Tally>, n: nat): (best: nat)
    requires 1 <= n <= |loads|
    ensures best < n
    ensures forall f :: 0 <= f < n ==> Cost(group, loads[best]) <= Cost(group, loads[f])
    ensures forall f :: 0 <= f < best ==> Cost(group, loads[best]) < Cost(group, loads[f])
  {
    if n == 1 then 0
    else
      var b := BestOf(group, loads, n - 1);
      if Cost(group, loads[n - 1]) < Cost(group, loads[b]) then n - 1 else b
  }

  function Empty(n: nat): (loads: seq<Tally>)
    ensures |loads| == n && forall f :: 0 <= f < n ==> loads[f] == NONE
  {
    if n == 0 then [] else Empty(n - 1) + [NONE]
  }

  /** The fold loads once the listed groups are placed, in order. */
  function Loads(obs: seq<Observation>, keys: seq<GroupKey>, folds: nat): (loads: seq<Tally>)
    requires folds > 0
    ensures |loads| == folds
  {
    if keys == [] then Empty(folds)
    else
      var loads := Loads(obs, keys[..|keys| - 1], folds);
      var group := GroupTally(obs, keys[|keys| - 1]);
      var best := BestOf(group, loads, folds);
      loads[best := loads[best].Plus(group)]
  }

  /** The fold each listed group went to. */
  function Placement(obs: seq<Observation>, keys: seq<GroupKey>, folds: nat): (at: map<GroupKey, nat>)
    requires folds > 0
    ensures forall k :: k in at <==> k in keys
    ensures forall k :: k in at ==> at[k] < folds
  {
    if keys == [] then map[]
    else
      var init, k := keys[..|keys| - 1], keys[|keys| - 1];
      assert forall x :: x in keys <==> x in init || x == k;
      Placement(obs, init, folds)[k := BestOf(GroupTally(obs, k), Loads(obs, init, folds), folds)]
  }

  lemma KeyOrderMembers(obs: seq<Observation>, keys: seq<GroupKey>)
    requires KeyOrder(obs, keys)
    ensures forall k :: k in keys <==> k in Keys(obs)
    ensures forall i :: 0 <= i < |obs| ==> KeyOf(obs, i) in keys
  {
    assert forall k :: k in keys <==> k in multiset(keys);
    assert forall i :: 0 <= i < |obs| ==> KeyOf(obs, i) in Keys(obs);
  }

  /** foldOf[i] is the fold of row i's group. */
  ghost predicate AssignedBy(obs: seq<Observation>, keys: seq<GroupKey>, folds: nat, foldOf: seq<nat>)
    requires folds > 0
  {
    && |foldOf| == |obs|
    && forall i :: 0 <= i < |obs| ==>
         KeyOf(obs, i) in keys && foldOf[i] == Placement(obs, keys, folds)[KeyOf(obs, i)]
  }

  // ---------------------------------------------------------------- the loops

  /** The groups of the rows below n. */
  ghost predicate GroupsBelow(obs: seq<Observation>, groups: map<GroupKey, seq<nat>>, n: nat)
    requires n <= |obs|
  {
    forall k :: if k in groups then groups[k] == RowsOf(obs, k, n) else RowsOf(obs, k, n) == []
  }

  lemma NextRowGrouped(obs: seq<Observation>, groups: map<GroupKey, seq<nat>>, i: nat)
    requires i < |obs| && GroupsBelow(obs, groups, i)
    ensures var k := KeyOf(obs, i);
            GroupsBelow(obs, groups[k := if k in groups then groups[k] + [i] else [i]], i + 1)
  {
    forall k
      ensures RowsOf(obs, k, i + 1) == if KeyOf(obs, i) == k then RowsOf(obs, k, i) + [i] else RowsOf(obs, k, i)
    {
      NextRowListed(obs, k, i + 1);
    }
  }

  lemma NextKeyListed(obs: seq<Observation>, keys: seq<GroupKey>, i: nat)
    requires i < |obs| && multiset(keys) == multiset(KeysBelow(obs, i))
    ensures var k := KeyOf(obs, i);
            multiset(if k in keys then keys else keys + [k]) == multiset(KeysBelow(obs, i + 1))
  {
    var k := KeyOf(obs, i);
    assert k in KeysBelow(obs, i) <==> k in multiset(keys);
    if k in keys { assert KeysBelow(obs, i + 1) == KeysBelow(obs, i); }
  }

  /** The first loop: collect the rows of every group, listing the groups as they appear. */
  method CollectGroups(obs: seq<Observation>) returns (groups: map<GroupKey, seq<nat>>, keys: seq<GroupKey>)
    ensures KeyOrder(obs, keys)
    ensures forall k :: k in groups <==> k in keys
    ensures forall k :: k in groups ==> groups[k] == GroupRows(obs, k)
  {
    groups, keys := map[], [];
    for i: nat := 0 to |obs|
      invariant forall k :: k in groups <==> k in keys
      invariant GroupsBelow(obs, groups, i)
      invariant multiset(keys) == multiset(KeysBelow(obs, i))
    {
      var k := KeyOf(obs, i);
      NextRowGrouped(obs, groups, i);
      NextKeyListed(obs, keys, i);
      if k in groups {
        groups := groups[k := groups[k] + [i]];
      } else {
        groups := groups[k := [i]];
        keys := keys + [k];
      }
    }
  }

  method TallyGroup(obs: seq<Observation>, rows: seq<nat>) returns (t: Tally)
    requires InRange(rows, |obs|)
    ensures t == TallyRows(obs, rows)
  {
    t := NONE;
    for j := 0 to |rows|
      invariant t == TallyRows(obs, rows[..j])
    {
      assert rows[..j + 1][..j] == rows[..j];
      t := t.Add(LabelOf(obs[rows[j]].verdict));
    }
    assert rows[..|rows|] == rows;
  }

  /** The second loop: in how many groups each class occurs. */
  method CountGroups(obs: seq<Observation>, groups: map<GroupKey, seq<nat>>, keys: seq<GroupKey>)
    returns (positive: nat, negative: nat)
    requires forall k :: k in keys ==> k in groups && groups[k] == GroupRows(obs, k)
    ensures positive == GroupsWith(obs, keys, Positive) && negative == GroupsWith(obs, keys, Negative)
  {
    positive, negative := 0, 0;
    for j := 0 to |keys|
      invariant positive == GroupsWith(obs, keys[..j], Positive) && negative == GroupsWith(obs, keys[..j], Negative)
    {
      assert keys[..j + 1][..j] == keys[..j];
      var seen := TallyGroup(obs, groups[keys[j]]);
      if seen.positive > 0 { positive := positive + 1; }
      if seen.negative > 0 { negative := negative + 1; }
    }
    assert keys[..|keys|] == keys;
  }

  method PickFold(group: Tally, loads: seq<Tally>) returns (best: nat)
    requires loads != []
    ensures best == BestOf(group, loads, |loads|)
  {
    best := 0;
    for f := 1 to |loads|
      invariant best == BestOf(group, loads, f)
    {
      if Cost(group, loads[f]) < Cost(group, loads[best]) {
        best := f;
      }
    }
  }

  /** The third loop: every group, in shuffled order, goes to the fold where it costs least. */
  method PlaceGroups(obs: seq<Observation>, groups: map<GroupKey, seq<nat>>, keys: seq<GroupKey>, folds: nat)
    returns (foldOf: seq<nat>)
    requires folds > 0 && KeyOrder(obs, keys)
    requires forall k :: k in keys ==> k in groups && groups[k] == GroupRows(obs, k)
    ensures AssignedBy(obs, keys, folds, foldOf)
  {
    var loads := Empty(folds);
    foldOf := seq(|obs|, _ => 0);
    for j := 0 to |keys|
      invariant loads == Loads(obs, keys[..j], folds)
      invariant |foldOf| == |obs|
      invariant forall i :: 0 <= i < |obs| && KeyOf(obs, i) in keys[..j] ==>
                  foldOf[i] == Placement(obs, keys[..j], folds)[KeyOf(obs, i)]
    {
      assert keys[..j + 1][..j] == keys[..j];
      var rows := groups[keys[j]];
      var group := TallyGroup(obs, rows);
      var best := PickFold(group, loads);
      loads := loads[best := loads[best].Plus(group)];
      foldOf := AssignRows(foldOf, rows, best);
      assert forall k :: k in keys[..j + 1] <==> k in keys[..j] || k == keys[j];
    }
    assert keys[..|keys|] == keys;
    KeyOrderMembers(obs, keys);
  }

  method AssignRows(foldOf: seq<nat>, rows: seq<nat>, best: nat) returns (foldOf': seq<nat>)
    requires InRange(rows, |foldOf|)
    ensures |foldOf'| == |foldOf|
    ensures forall i :: 0 <= i < |foldOf| ==> foldOf'[i] == if i in rows then best else foldOf[i]
  {
    foldOf' := foldOf;
    for j := 0 to |rows|
      invariant |foldOf'| == |foldOf|
      invariant forall i :: 0 <= i < |foldOf| ==> foldOf'[i] == if i in rows[..j] then best else foldOf[i]
    {
      foldOf' := foldOf'[rows[j] := best];
    }
  }

  /** Sorting the keys and shuffling them with a seed: a function of the set of keys, which lists each once. */
  ghost predicate IsShuffle(shuffle: set<GroupKey> -> seq<GroupKey>) {
    forall ks :: multiset(shuffle(ks)) == multiset(ks)
  }

  function Min3(a: int, b: int, c: int): int {
    if a <= b && a <= c then a else if b <= c then b else c
  }

  /** As many folds as asked for, but no more than there are groups with each class; one fold is none. */
  function FoldCount(obs: seq<Observation>, keys: seq<GroupKey>, folds: int): nat {
    var m := Min3(folds, GroupsWith(obs, keys, Positive), GroupsWith(obs, keys, Negative));
    if m < 2 then 0 else m
  }

  /** The groups that hold a row of label l. */
  function GroupsHolding(obs: seq<Observation>, l: Label): set<GroupKey> {
    set i | 0 <= i < |obs| && LabelOf(obs[i].verdict) == l :: KeyOf(obs, i)
  }

  lemma HoldsExactlyWhenCounted(obs: seq<Observation>, k: GroupKey, l: Label)
    ensures k in GroupsHolding(obs, l) <==> GroupTally(obs, k).Of(l) > 0
  {
    TallyCountsRows(obs, k, l, |obs|);
    if k in GroupsHolding(obs, l) {
      var i :| 0 <= i < |obs| && LabelOf(obs[i].verdict) == l && KeyOf(obs, i) == k;
      assert i in GroupRowsWith(obs, k, l, |obs|);
    }
    if GroupTally(obs, k).Of(l) > 0 {
      var i :| i in GroupRowsWith(obs, k, l, |obs|);
      assert InGroup(obs, i, k, l);
    }
  }

  function Listed(obs: seq<Observation>, keys: seq<GroupKey>, l: Label): set<GroupKey> {
    set k | k in keys && k in GroupsHolding(obs, l)
  }

  lemma {:induction false} GroupsWithCountsListed(obs: seq<Observation>, keys: seq<GroupKey>, l: Label)
    requires forall j, k :: 0 <= j < k < |keys| ==> keys[j] != keys[k]
    ensures GroupsWith(obs, keys, l) == |Listed(obs, keys, l)|
  {
    if keys == [] {
      assert Listed(obs, keys, l) == {};
    } else {
      var init, k := keys[..|keys| - 1], keys[|keys| - 1];
      GroupsWithCountsListed(obs, init, l);
      HoldsExactlyWhenCounted(obs, k, l);
      LastListed(obs, keys, l);
    }
  }

  lemma LastListed(obs: seq<Observation>, keys: seq<GroupKey>, l: Label)
    requires keys != [] && keys[|keys| - 1] !in keys[..|keys| - 1]
    ensures |Listed(obs, keys, l)|
            == |Listed(obs, keys[..|keys| - 1], l)| + if keys[|keys| - 1] in GroupsHolding(obs, l) then 1 else 0
  {
    assert keys == keys[..|keys| - 1] + [keys[|keys| - 1]];
    ListedOneMore(obs, keys[..|keys| - 1], keys[|keys| - 1], l);
  }

  lemma ListedOneMore(obs: seq<Observation>, keys: seq<GroupKey>, k: GroupKey, l: Label)
    requires k !in keys
    ensures |Listed(obs, keys + [k], l)| == |Listed(obs, keys, l)| + if k in GroupsHolding(obs, l) then 1 else 0
  {
    var holding := GroupsHolding(obs, l);
    assert forall x :: x in keys + [k] <==> x in keys || x == k;
    assert Listed(obs, keys + [k], l) == Listed(obs, keys, l) + if k in holding then {k} else {};
  }

  /** As many groups are counted for a label as hold a row of it. */
  lemma GroupsWithCountsGroups(obs: seq<Observation>, keys: seq<GroupKey>, l: Label)
    requires KeyOrder(obs, keys)
    ensures GroupsWith(obs, keys, l) == |GroupsHolding(obs, l)|
  {
    DistinctKeys(obs, keys);
    KeyOrderMembers(obs, keys);
    GroupsWithCountsListed(obs, keys, l);
    assert Listed(obs, keys, l) == GroupsHolding(obs, l);
  }

  /** There are as many folds as asked for, unless a class has fewer groups; and at least two, or none. */
  lemma FoldCountIs(obs: seq<Observation>, keys: seq<GroupKey>, folds: int)
    requires KeyOrder(obs, keys)
    ensures var n, positive, negative := FoldCount(obs, keys, folds), |GroupsHolding(obs, Positive)|,
              |GroupsHolding(obs, Negative)|;
            && (n == 0 <==> folds < 2 || positive < 2 || negative < 2)
            && (n > 0 ==> n <= folds && n <= positive && n <= negative
                          && (n == folds || n == positive || n == negative))
  {
    GroupsWithCountsGroups(obs, keys, Positive);
    GroupsWithCountsGroups(obs, keys, Negative);
  }

  /** The pairs of rows of one class that a group and the rows already on a fold would make. */
  function ClassPairs(obs: seq<Observation>, k: GroupKey, at: map<GroupKey, nat>, f: nat): nat {
    |GroupRowsWith(obs, k, Positive, |obs|)| * |PlacedOn(obs, at, f, Positive)|
    + |GroupRowsWith(obs, k, Negative, |obs|)| * |PlacedOn(obs, at, f, Negative)|
  }

  /** Each group goes to the first of the folds on which it makes the fewest pairs with rows placed before. */
  lemma GreedyChoice(obs: seq<Observation>, keys: seq<GroupKey>, folds: nat, f: nat)
    requires f < folds && keys != []
    requires forall j, k :: 0 <= j < k < |keys| ==> keys[j] != keys[k]
    ensures var init, k := keys[..|keys| - 1], keys[|keys| - 1];
            var best, before := Placement(obs, keys, folds)[k], Placement(obs, init, folds);
            && Placement(obs, keys, folds) == before[k := best]
            && ClassPairs(obs, k, before, best) <= ClassPairs(obs, k, before, f)
            && (f < best ==> ClassPairs(obs, k, before, best) < ClassPairs(obs, k, before, f))
  {
    var init, k := keys[..|keys| - 1], keys[|keys| - 1];
    var best := BestOf(GroupTally(obs, k), Loads(obs, init, folds), folds);
    CostIsPairs(obs, init, folds, k, best);
    CostIsPairs(obs, init, folds, k, f);
  }

  lemma CostIsPairs(obs: seq<Observation>, keys: seq<GroupKey>, folds: nat, k: GroupKey, f: nat)
    requires f < folds && forall i, j :: 0 <= i < j < |keys| ==> keys[i] != keys[j]
    ensures Cost(GroupTally(obs, k), Loads(obs, keys, folds)[f])
            == ClassPairs(obs, k, Placement(obs, keys, folds), f)
  {
    TallyCountsRows(obs, k, Positive, |obs|);
    TallyCountsRows(obs, k, Negative, |obs|);
    LoadsCountPlaced(obs, keys, folds, f, Positive);
    LoadsCountPlaced(obs, keys, folds, f, Negative);
  }

  /** groupedFolds; zero folds stands for its nil result. keys is the order the groups were placed in, which
      depends on the set of groups and the seed alone. */
  method AssignFolds(obs: seq<Observation>, folds: int, shuffle: set<GroupKey> -> seq<GroupKey>)
    returns (foldOf: seq<nat>, n: nat, keys: seq<GroupKey>)
    requires IsShuffle(shuffle)
    ensures KeyOrder(obs, keys) && keys == shuffle(Keys(obs))
    ensures n == FoldCount(obs, keys, folds)
    ensures if n == 0 then foldOf == [] else AssignedBy(obs, keys, n, foldOf)
  {
    var groups, found := CollectGroups(obs);
    var positive, negative := CountGroups(obs, groups, found);
    KeyOrderMembers(obs, found);
    assert groups.Keys == Keys(obs);
    var order := shuffle(groups.Keys);
    keys := order;
    GroupsWithPermutation(obs, found, order, Positive);
    GroupsWithPermutation(obs, found, order, Negative);
    var m := Min3(folds, positive, negative);
    if m < 2 {
      return [], 0, order;
    }
    KeyOrderMembers(obs, order);
    foldOf := PlaceGroups(obs, groups, order, m);
    n := m;
  }

  lemma {:induction false} GroupsWithAppend(obs: seq<Observation>, a: seq<GroupKey>, b: seq<GroupKey>, l: Label)
    ensures GroupsWith(obs, a + b, l) == GroupsWith(obs, a, l) + GroupsWith(obs, b, l)
  {
    if b == [] {
      assert a + b == a;
    } else {
      GroupsWithAppend(obs, a, b[..|b| - 1], l);
      assert (a + b)[..|a + b| - 1] == a + b[..|b| - 1];
    }
  }

  lemma GroupsWithWithout(obs: seq<Observation>, a: seq<GroupKey>, i: nat, l: Label)
    requires i < |a|
    ensures GroupsWith(obs, a, l) == GroupsWith(obs, [a[i]], l) + GroupsWith(obs, a[..i] + a[i + 1..], l)
  {
    assert a == a[..i] + ([a[i]] + a[i + 1..]);
    GroupsWithAppend(obs, a[..i], [a[i]] + a[i + 1..], l);
    GroupsWithAppend(obs, [a[i]], a[i + 1..], l);
    GroupsWithAppend(obs, a[..i], a[i + 1..], l);
  }

  lemma GroupsWithTail(obs: seq<Observation>, a: seq<GroupKey>, l: Label)
    requires a != []
    ensures GroupsWith(obs, a, l) == GroupsWith(obs, [a[0]], l) + GroupsWith(obs, a[1..], l)
  {
    GroupsWithAppend(obs, [a[0]], a[1..], l);
    assert [a[0]] + a[1..] == a;
  }

  lemma {:induction false} GroupsWithPermutation(obs: seq<Observation>, a: seq<GroupKey>, b: seq<GroupKey>, l: Label)
    requires multiset(a) == multiset(b)
    ensures GroupsWith(obs, a, l) == GroupsWith(obs, b, l)
    decreases |a|
  {
    if a == [] {
      assert |multiset(b)| == 0;
    } else {
      var i := PermutationTail(a, b);
      GroupsWithPermutation(obs, a[1..], b[..i] + b[i + 1..], l);
      GroupsWithWithout(obs, b, i, l);
      GroupsWithTail(obs, a, l);
    }
  }

  // ---------------------------------------------------------------- single-class groups

  /** No group mixes positives and negatives. */
  ghost predicate SingleClass(obs: seq<Observation>) {
    forall k :: k in Keys(obs) ==> GroupTally(obs, k).positive == 0 || GroupTally(obs, k).negative == 0
  }

  /** For a group of one class, costing least is carrying least of that class. */
  lemma CheapestIsLightest(group: Tally, load: Tally, load': Tally, l: Label)
    requires l != Unlabeled && group.Of(l) > 0
    requires group.positive == 0 || group.negative == 0
    requires Cost(group, load) <= Cost(group, load')
    ensures load.Of(l) <= load'.Of(l)
  {
    CancelFactor(group.Of(l), load.Of(l), load'.Of(l));
  }

  lemma CancelFactor(s: nat, a: nat, b: nat)
    requires s > 0
    ensures s * a <= s * b <==> a <= b
  {
  }

  ghost predicate WithinSize(loads: seq<Tally>, l: Label, size: nat) {
    forall f, g :: 0 <= f < |loads| && 0 <= g < |loads| ==> loads[f].Of(l) <= loads[g].Of(l) + size
  }

  lemma PlaceKeepsBalance(loads: seq<Tally>, group: Tally, l: Label, size: nat)
    requires loads != [] && l != Unlabeled && WithinSize(loads, l, size)
    requires group.Of(l) <= size && (group.positive == 0 || group.negative == 0)
    ensures var best := BestOf(group, loads, |loads|); WithinSize(loads[best := loads[best].Plus(group)], l, size)
  {
    var best := BestOf(group, loads, |loads|);
    if group.Of(l) > 0 {
      forall f | 0 <= f < |loads|
        ensures loads[best].Of(l) <= loads[f].Of(l)
      {
        CheapestIsLightest(group, loads[best], loads[f], l);
      }
    }
  }

  /** Greedy placement keeps the folds' loads of each class within the largest group of each other. */
  lemma {:induction false} GreedyIsBalanced(obs: seq<Observation>, keys: seq<GroupKey>, folds: nat, l: Label, size: nat)
    requires folds > 0 && l != Unlabeled
    requires forall k :: k in keys ==> GroupTally(obs, k).Of(l) <= size
    requires forall k :: k in keys ==> GroupTally(obs, k).positive == 0 || GroupTally(obs, k).negative == 0
    ensures WithinSize(Loads(obs, keys, folds), l, size)
  {
    if keys == [] {
    } else {
      GreedyIsBalanced(obs, keys[..|keys| - 1], folds, l, size);
      PlaceKeepsBalance(Loads(obs, keys[..|keys| - 1], folds), GroupTally(obs, keys[|keys| - 1]), l, size);
    }
  }

  /** How many folds have no row of label l. */
  function Lacking(loads: seq<Tally>, l: Label): nat {
    if loads == [] then 0
    else Lacking(loads[..|loads| - 1], l) + (if loads[|loads| - 1].Of(l) == 0 then 1 else 0)
  }

  lemma {:induction false} LackingUpdate(loads: seq<Tally>, l: Label, f: nat, t: Tally)
    requires f < |loads|
    ensures Lacking(loads[f := t], l) + (if loads[f].Of(l) == 0 then 1 else 0)
         == Lacking(loads, l) + (if t.Of(l) == 0 then 1 else 0)
  {
    var init := loads[..|loads| - 1];
    if f == |loads| - 1 {
      assert loads[f := t][..|loads| - 1] == init;
    } else {
      LackingUpdate(init, l, f, t);
      assert loads[f := t][..|loads| - 1] == init[f := t];
    }
  }

  lemma {:induction false} LackingSome(loads: seq<Tally>, l: Label)
    ensures Lacking(loads, l) > 0 <==> exists f :: 0 <= f < |loads| && loads[f].Of(l) == 0
    ensures Lacking(loads, l) <= |loads|
    ensures (forall f :: 0 <= f < |loads| ==> loads[f].Of(l) == 0) ==> Lacking(loads, l) == |loads|
  {
    if loads == [] {
    } else {
      LackingSome(loads[..|loads| - 1], l);
    }
  }

  /** While a fold lacks class l, every group of that class has gone to a fold that lacked it. */
  lemma {:induction false} GreedyFillsFolds(obs: seq<Observation>, keys: seq<GroupKey>, folds: nat, l: Label)
    requires folds > 0 && l != Unlabeled
    requires forall k :: k in keys ==> GroupTally(obs, k).positive == 0 || GroupTally(obs, k).negative == 0
    ensures var lacking := Lacking(Loads(obs, keys, folds), l);
            lacking == 0 || lacking + GroupsWith(obs, keys, l) == folds
  {
    LackingSome(Loads(obs, keys, folds), l);
    if keys == [] {
    } else {
      var init, group := keys[..|keys| - 1], GroupTally(obs, keys[|keys| - 1]);
      var loads := Loads(obs, init, folds);
      var best := BestOf(group, loads, folds);
      GreedyFillsFolds(obs, init, folds, l);
      LackingUpdate(loads, l, best, loads[best].Plus(group));
      LackingSome(loads, l);
      if group.Of(l) > 0 && Lacking(loads, l) > 0 {
        var f :| 0 <= f < |loads| && loads[f].Of(l) == 0;
        CheapestIsLightest(group, loads[best], loads[f], l);
      }
    }
  }

  lemma DistinctKeys(obs: seq<Observation>, keys: seq<GroupKey>)
    requires KeyOrder(obs, keys)
    ensures forall j, k :: 0 <= j < k < |keys| ==> keys[j] != keys[k]
  {
    forall j, k | 0 <= j < k < |keys|
      ensures keys[j] != keys[k]
    {
      CountedTwice(keys, j, k);
    }
  }

  predicate InGroup(obs: seq<Observation>, i: int, k: GroupKey, l: Label) {
    0 <= i < |obs| && KeyOf(obs, i) == k && LabelOf(obs[i].verdict) == l
  }

  /** The rows below n of group k that carry label l. */
  function GroupRowsWith(obs: seq<Observation>, k: GroupKey, l: Label, n: nat): set<nat>
    requires n <= |obs|
  {
    set i | 0 <= i < n && InGroup(obs, i, k, l)
  }

  lemma TallyNext(obs: seq<Observation>, rows: seq<nat>, i: nat, l: Label)
    requires InRange(rows, |obs|) && i < |obs|
    ensures TallyRows(obs, rows + [i]).Of(l)
         == TallyRows(obs, rows).Of(l) + (if LabelOf(obs[i].verdict) == l then 1 else 0)
  {
    assert (rows + [i])[..|rows|] == rows;
  }

  lemma NextRowTallied(obs: seq<Observation>, k: GroupKey, l: Label, n: nat)
    requires 0 < n <= |obs|
    ensures TallyRows(obs, RowsOf(obs, k, n)).Of(l)
         == TallyRows(obs, RowsOf(obs, k, n - 1)).Of(l) + (if InGroup(obs, n - 1, k, l) then 1 else 0)
  {
    var before := RowsOf(obs, k, n - 1);
    NextRowListed(obs, k, n);
    if KeyOf(obs, n - 1) == k { TallyNext(obs, before, n - 1, l); }
  }

  lemma {:induction false} TallyCountsRows(obs: seq<Observation>, k: GroupKey, l: Label, n: nat)
    requires n <= |obs|
    ensures TallyRows(obs, RowsOf(obs, k, n)).Of(l) == |GroupRowsWith(obs, k, l, n)|
  {
    if n == 0 {
    } else {
      TallyCountsRows(obs, k, l, n - 1);
      NextRowCounted(obs, k, l, n);
      NextRowTallied(obs, k, l, n);
    }
  }

  lemma NextRowCounted(obs: seq<Observation>, k: GroupKey, l: Label, n: nat)
    requires 0 < n <= |obs|
    ensures |GroupRowsWith(obs, k, l, n)|
         == |GroupRowsWith(obs, k, l, n - 1)| + (if InGroup(obs, n - 1, k, l) then 1 else 0)
  {
    var before, now := GroupRowsWith(obs, k, l, n - 1), GroupRowsWith(obs, k, l, n);
    assert n - 1 !in before;
    assert forall i :: i in now <==> i in before || (i == n - 1 && InGroup(obs, i, k, l));
    assert now == before + if InGroup(obs, n - 1, k, l) then {n - 1} else {};
  }

  /** The rows of label l whose groups are placed on fold f. */
  function PlacedOn(obs: seq<Observation>, at: map<GroupKey, nat>, f: nat, l: Label): set<nat> {
    set i | 0 <= i < |obs| && KeyOf(obs, i) in at && at[KeyOf(obs, i)] == f && LabelOf(obs[i].verdict) == l
  }

  lemma PlacedAfter(obs: seq<Observation>, at: map<GroupKey, nat>, k: GroupKey, best: nat, f: nat, l: Label)
    requires k !in at
    ensures PlacedOn(obs, at, f, l) !! GroupRowsWith(obs, k, l, |obs|)
    ensures PlacedOn(obs, at[k := best], f, l)
         == PlacedOn(obs, at, f, l) + (if best == f then GroupRowsWith(obs, k, l, |obs|) else {})
  {
  }

  lemma PlacingAddsGroup(obs: seq<Observation>, at: map<GroupKey, nat>, k: GroupKey, best: nat, f: nat, l: Label)
    requires k !in at
    ensures |PlacedOn(obs, at[k := best], f, l)|
         == |PlacedOn(obs, at, f, l)| + (if best == f then GroupTally(obs, k).Of(l) else 0)
  {
    TallyCountsRows(obs, k, l, |obs|);
    PlacedAfter(obs, at, k, best, f, l);
  }

  lemma {:induction false} LoadsCountPlaced(obs: seq<Observation>, keys: seq<GroupKey>, folds: nat, f: nat, l: Label)
    requires f < folds
    requires forall j, k :: 0 <= j < k < |keys| ==> keys[j] != keys[k]
    ensures Loads(obs, keys, folds)[f].Of(l) == |PlacedOn(obs, Placement(obs, keys, folds), f, l)|
  {
    if keys == [] {
      assert PlacedOn(obs, map[], f, l) == {};
    } else {
      var init, k := keys[..|keys| - 1], keys[|keys| - 1];
      LoadsCountPlaced(obs, init, folds, f, l);
      var best := BestOf(GroupTally(obs, k), Loads(obs, init, folds), folds);
      assert k !in init;
      PlacingAddsGroup(obs, Placement(obs, init, folds), k, best, f, l);
    }
  }

  /** The rows of label l on fold f. */
  function RowsOn(obs: seq<Observation>, foldOf: seq<nat>, f: nat, l: Label): set<nat>
    requires |foldOf| == |obs|
  {
    set i | 0 <= i < |obs| && foldOf[i] == f && LabelOf(obs[i].verdict) == l
  }

  /** The loads the greedy choice goes by are the numbers of rows the assignment puts on each fold. */
  lemma LoadsCountRows(obs: seq<Observation>, keys: seq<GroupKey>, folds: nat, foldOf: seq<nat>, f: nat, l: Label)
    requires KeyOrder(obs, keys) && f < folds && AssignedBy(obs, keys, folds, foldOf)
    ensures Loads(obs, keys, folds)[f].Of(l) == |RowsOn(obs, foldOf, f, l)|
  {
    DistinctKeys(obs, keys);
    LoadsCountPlaced(obs, keys, folds, f, l);
    assert RowsOn(obs, foldOf, f, l) == PlacedOn(obs, Placement(obs, keys, folds), f, l);
  }

  /** With single-class groups, any two folds hold as many rows of a class, give or take the largest group. */
  lemma RowsAreBalanced(obs: seq<Observation>, keys: seq<GroupKey>, folds: nat, foldOf: seq<nat>, l: Label, size: nat)
    requires KeyOrder(obs, keys) && SingleClass(obs) && l != Unlabeled
    requires folds > 0 && AssignedBy(obs, keys, folds, foldOf)
    requires forall k :: k in keys ==> |GroupRowsWith(obs, k, l, |obs|)| <= size
    ensures forall f, g :: 0 <= f < folds && 0 <= g < folds ==>
              |RowsOn(obs, foldOf, f, l)| <= |RowsOn(obs, foldOf, g, l)| + size
  {
    KeyOrderMembers(obs, keys);
    forall k | k in keys
      ensures GroupTally(obs, k).Of(l) <= size
    {
      TallyCountsRows(obs, k, l, |obs|);
    }
    GreedyIsBalanced(obs, keys, folds, l, size);
    forall f, g | 0 <= f < folds && 0 <= g < folds
      ensures |RowsOn(obs, foldOf, f, l)| <= |RowsOn(obs, foldOf, g, l)| + size
    {
      LoadsCountRows(obs, keys, folds, foldOf, f, l);
      LoadsCountRows(obs, keys, folds, foldOf, g, l);
    }
  }

  /** With single-class groups and at least two folds, every fold gets a row of each class. */
  lemma EveryFoldHasBothClasses(obs: seq<Observation>, keys: seq<GroupKey>, folds: nat, foldOf: seq<nat>, l: Label,
                                f: nat)
    returns (i: nat)
    requires KeyOrder(obs, keys) && SingleClass(obs)
    requires f < folds <= GroupsWith(obs, keys, l) && l != Unlabeled
    requires AssignedBy(obs, keys, folds, foldOf)
    ensures i < |obs| && LabelOf(obs[i].verdict) == l && foldOf[i] == f
  {
    KeyOrderMembers(obs, keys);
    GreedyFillsFolds(obs, keys, folds, l);
    LackingSome(Loads(obs, keys, folds), l);
    LoadsCountRows(obs, keys, folds, foldOf, f, l);
    i :| i in RowsOn(obs, foldOf, f, l);
  }
}
