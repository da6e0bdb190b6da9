/**
 Counter vectors with a bounded set of labels (internal/metrics/metrics.go): a key is admitted
 under the mutex and its label counted afterwards, so concurrent calls interleave as separate steps.
 */
module Counters {
  import opened Seqs

  datatype Label<K> = Label(key: K, result: string)

  type Vector<K(==)> = map<Label<K>, nat>

  /** How a family bounds its keys: `exempt` keys need no admission, the rest share `max` places. */
  datatype Limits<K(==)> = Limits(max: int, exempt: set<K>, other: K)

  datatype Family<K(==)> = Family(admitted: set<K>, counts: Vector<K>)

  function Get<K(==)>(v: Vector<K>, l: Label<K>): nat {
    if l in v then v[l] else 0
  }

  function Inc<K(==)>(v: Vector<K>, l: Label<K>): Vector<K> {
    v[l := Get(v, l) + 1]
  }

  /** The key a call is counted under, given the keys admitted so far. */
  function Place<K(==)>(limits: Limits<K>, admitted: set<K>, key: K): K {
    if key in limits.exempt || key in admitted || |admitted| < limits.max then key else limits.other
  }

  function AdmitKey<K(==)>(limits: Limits<K>, admitted: set<K>, key: K): set<K> {
    if key in limits.exempt || key in admitted || |admitted| >= limits.max then admitted else admitted + {key}
  }

  /** One call with nothing in between its two steps. */
  function Observe<K(==)>(limits: Limits<K>, f: Family<K>, key: K, result: string): Family<K> {
    Family(AdmitKey(limits, f.admitted, key), Inc(f.counts, Label(Place(limits, f.admitted, key), result)))
  }

  // ---------------------------------------------------------------- concurrent calls

  /** `pending` are labels admitted but not yet counted; `log` lists all calls in lock order. */
  datatype State<K(==)> = State(family: Family<K>, pending: multiset<Label<K>>, log: seq<Label<K>>)

  datatype Action<K> = Lock(key: K, result: string) | Count(pendingLabel: Label<K>)

  function Start<K(==)>(): State<K> {
    State(Family({}, map[]), multiset{}, [])
  }

  function Step<K(==)>(limits: Limits<K>, s: State<K>, a: Action<K>): State<K> {
    match a
    case Lock(key, result) =>
      State(
        s.family.(admitted := AdmitKey(limits, s.family.admitted, key)),
        s.pending + multiset{Label(Place(limits, s.family.admitted, key), result)},
        s.log + [Label(key, result)])
    case Count(l) =>
      if l in s.pending then
        s.(family := s.family.(counts := Inc(s.family.counts, l)), pending := s.pending - multiset{l})
      else s
  }

  function Run<K(==)>(limits: Limits<K>, actions: seq<Action<K>>): State<K> {
    if actions == [] then Start()
    else Step(limits, Run(limits, actions[..|actions|-1]), actions[|actions|-1])
  }

  function Keys<K>(log: seq<Label<K>>): seq<K> {
    seq(|log|, i requires 0 <= i < |log| => log[i].key)
  }

  function Bounded<K(==)>(limits: Limits<K>): K -> bool {
    key => key !in limits.exempt
  }

  /** The distinct bounded keys of a log, in order of first appearance. */
  function Contenders<K(==, !new)>(limits: Limits<K>, log: seq<Label<K>>): seq<K> {
    Dedupe(Filter(Keys(log), Bounded(limits)))
  }

  function FirstOf<K>(all: seq<K>, max: int): seq<K> {
    if max <= 0 then [] else if |all| <= max then all else all[..max]
  }

  /** The first `max` distinct bounded keys of a log. */
  function Winners<K(==, !new)>(limits: Limits<K>, log: seq<Label<K>>): seq<K> {
    FirstOf(Contenders(limits, log), limits.max)
  }

  function SetOf<K(==)>(s: seq<K>): set<K> {
    set x | x in s
  }

  lemma {:induction false} SetOfDistinct<K>(s: seq<K>)
    requires Distinct(s)
    ensures |SetOf(s)| == |s|
  {
    if s != [] {
      var front, x := s[..|s|-1], s[|s|-1];
      SetOfDistinct(front);
      assert SetOf(s) == SetOf(front) + {x};
    }
  }

  lemma ContendersAre<K(!new)>(limits: Limits<K>, log: seq<Label<K>>)
    ensures forall k :: k in Contenders(limits, log) <==> k in Keys(log) && k !in limits.exempt
  {
  }

  lemma WinnersDistinct<K(!new)>(limits: Limits<K>, log: seq<Label<K>>)
    ensures Distinct(Winners(limits, log))
    ensures |SetOf(Winners(limits, log))| == |Winners(limits, log)|
    ensures |Winners(limits, log)| <= if limits.max <= 0 then 0 else limits.max
  {
    SetOfDistinct(Winners(limits, log));
  }

  /** A key that needs no place has none. */
  lemma ExemptHasNoPlace<K(!new)>(limits: Limits<K>, log: seq<Label<K>>)
    ensures forall k :: k in limits.exempt ==> k !in SetOf(Winners(limits, log))
  {
    ContendersAre(limits, log);
  }

  lemma ContendersStep<K(!new)>(limits: Limits<K>, log: seq<Label<K>>, l: Label<K>)
    ensures var all := Contenders(limits, log);
            Contenders(limits, log + [l])
            == if l.key in limits.exempt || l.key in all then all else all + [l.key]
  {
    assert Keys(log + [l]) == Keys(log) + [l.key];
    FilterLast(Keys(log), l.key, Bounded(limits));
    var kept := Filter(Keys(log), Bounded(limits));
    assert (kept + [l.key])[..|kept|] == kept;
    assert kept + [] == kept;
  }

  /** There is room for the key, and it needs and lacks a place. */
  predicate Enters<K(==)>(limits: Limits<K>, admitted: set<K>, key: K) {
    key !in limits.exempt && key !in admitted && |admitted| < limits.max
  }

  lemma FirstOfGrows<K>(all: seq<K>, k: K, max: int)
    ensures FirstOf(all + [k], max) == if |all| < max then FirstOf(all, max) + [k] else FirstOf(all, max)
    ensures |all| < max ==> FirstOf(all, max) == all
    ensures |all| >= max ==> |FirstOf(all, max)| == if max <= 0 then 0 else max
  {
    if 0 < max <= |all| {
      assert (all + [k])[..max] == all[..max];
    }
  }

  lemma WinnersGrow<K(!new)>(limits: Limits<K>, log: seq<Label<K>>, l: Label<K>)
    ensures var w := Winners(limits, log);
            Winners(limits, log + [l]) == if Enters(limits, SetOf(w), l.key) then w + [l.key] else w
    ensures Enters(limits, SetOf(Winners(limits, log)), l.key) ==> l.key !in Keys(log)
  {
    var all, w := Contenders(limits, log), Winners(limits, log);
    ContendersStep(limits, log, l);
    ContendersAre(limits, log);
    FirstOfGrows(all, l.key, limits.max);
    assert |SetOf(w)| == |w| by { WinnersDistinct(limits, log); }
  }

  /** Admitting in lock order keeps the admitted set equal to the first `max` distinct keys of the log. */
  lemma WinnersStep<K(!new)>(limits: Limits<K>, log: seq<Label<K>>, l: Label<K>)
    ensures var w, w' := SetOf(Winners(limits, log)), SetOf(Winners(limits, log + [l]));
            && w' == AdmitKey(limits, w, l.key)
            && (forall k :: k in Keys(log) ==> (k in w' <==> k in w))
            && Place(limits, w, l.key) == if l.key in limits.exempt || l.key in w' then l.key else limits.other
  {
    WinnersGrow(limits, log, l);
    var w := Winners(limits, log);
    assert SetOf(w + [l.key]) == SetOf(w) + {l.key};
  }

  /** Where the calls for a key belong, judged from the whole log. */
  function Where<K(==, !new)>(limits: Limits<K>, log: seq<Label<K>>, key: K): K {
    if key in limits.exempt || key in SetOf(Winners(limits, log)) then key else limits.other
  }

  /** How many of the first `n` logged calls belong to a label, judged from the whole log. */
  function Belonging<K(==, !new)>(limits: Limits<K>, log: seq<Label<K>>, n: nat, l: Label<K>): nat
    requires n <= |log|
  {
    if n == 0 then 0
    else
      Belonging(limits, log, n - 1, l) +
      if Label(Where(limits, log, log[n-1].key), log[n-1].result) == l then 1 else 0
  }

  /** Later calls do not change where earlier ones belong. */
  lemma {:induction false} BelongingStable<K(!new)>(
      limits: Limits<K>, log: seq<Label<K>>, last: Label<K>, n: nat, l: Label<K>)
    requires n <= |log|
    ensures Belonging(limits, log + [last], n, l) == Belonging(limits, log, n, l)
  {
    if n > 0 {
      BelongingStable(limits, log, last, n - 1, l);
      WhereStable(limits, log, last, n - 1);
      assert (log + [last])[n-1] == log[n-1];
    }
  }

  lemma WhereStable<K(!new)>(limits: Limits<K>, log: seq<Label<K>>, last: Label<K>, i: nat)
    requires i < |log|
    ensures Where(limits, log + [last], log[i].key) == Where(limits, log, log[i].key)
  {
    WinnersStep(limits, log, last);
    assert log[i].key == Keys(log)[i];
  }

  /**
   In every interleaving the admitted keys are exactly the first `max` distinct keys in lock order,
   and for every label, what is counted and what is in flight together are the calls that belong to it.
   */
  lemma {:induction false} EveryInterleaving<K(!new)>(limits: Limits<K>, actions: seq<Action<K>>)
    ensures Balanced(limits, Run(limits, actions))
  {
    if actions != [] {
      var before, a := Run(limits, actions[..|actions|-1]), actions[|actions|-1];
      EveryInterleaving(limits, actions[..|actions|-1]);
      if a.Lock? {
        LockBalanced(limits, before, a.key, a.result);
      }
    }
  }

  ghost predicate Balanced<K(!new)>(limits: Limits<K>, s: State<K>) {
    && s.family.admitted == SetOf(Winners(limits, s.log))
    && forall l :: Get(s.family.counts, l) + s.pending[l] == Belonging(limits, s.log, |s.log|, l)
  }

  lemma LockBalanced<K(!new)>(limits: Limits<K>, s: State<K>, key: K, result: string)
    requires Balanced(limits, s)
    ensures Balanced(limits, Step(limits, s, Lock(key, result)))
  {
    var call, next := Label(key, result), Step(limits, s, Lock(key, result));
    WinnersStep(limits, s.log, call);
    assert next.log[|s.log|] == call;
    forall l ensures Get(next.family.counts, l) + next.pending[l] == Belonging(limits, next.log, |next.log|, l) {
      BelongingStable(limits, s.log, call, |s.log|, l);
    }
  }

  /** An admitted key never falls into `other`: all its calls, early or late, are its own. */
  lemma AdmittedKeepsItsCalls<K(!new)>(limits: Limits<K>, actions: seq<Action<K>>, key: K, result: string)
    requires var s := Run(limits, actions); key in s.family.admitted && key != limits.other
    ensures var s, l := Run(limits, actions), Label(key, result);
            Get(s.family.counts, l) + s.pending[l] == multiset(s.log)[l]
  {
    var s, l := Run(limits, actions), Label(key, result);
    EveryInterleaving(limits, actions);
    OwnCalls(limits, s.log, |s.log|, l);
    assert s.log[..|s.log|] == s.log;
  }

  /** A key with a place, or one that needs none, holds exactly its own calls. */
  lemma {:induction false} OwnCalls<K(!new)>(limits: Limits<K>, log: seq<Label<K>>, n: nat, l: Label<K>)
    requires n <= |log| && Where(limits, log, l.key) == l.key && l.key != limits.other
    ensures Belonging(limits, log, n, l) == multiset(log[..n])[l]
  {
    if n > 0 {
      OwnCalls(limits, log, n - 1, l);
      assert log[..n] == log[..n-1] + [log[n-1]];
    }
  }

  /** The calls that a whole log gives to a label. */
  function PlacedAt<K(==, !new)>(limits: Limits<K>, log: seq<Label<K>>, l: Label<K>): Label<K> -> bool {
    (call: Label<K>) => Label(Where(limits, log, call.key), call.result) == l
  }

  lemma {:induction false} BelongingFilter<K(!new)>(limits: Limits<K>, log: seq<Label<K>>, n: nat, l: Label<K>)
    requires n <= |log|
    ensures Belonging(limits, log, n, l) == |Filter(log[..n], PlacedAt(limits, log, l))|
  {
    if n > 0 {
      BelongingFilter(limits, log, n - 1, l);
      assert log[..n] == log[..n-1] + [log[n-1]];
      FilterLast(log[..n-1], log[n-1], PlacedAt(limits, log, l));
    }
  }

  // ---------------------------------------------------------------- totals

  /** The sum of all counters of a vector. */
  ghost function Total<L(!new)>(v: map<L, nat>): nat {
    if v == map[] then 0
    else
      var l :| l in v;
      v[l] + Total(v - {l})
  }

  lemma {:induction false} TotalSplit<L(!new)>(v: map<L, nat>, l: L)
    requires l in v
    ensures Total(v) == v[l] + Total(v - {l})
    decreases |v|
  {
    var first :| first in v && Total(v) == v[first] + Total(v - {first});
    if first != l {
      TotalSplit(v - {first}, l);
      TotalSplit(v - {l}, first);
      assert v - {first} - {l} == v - {l} - {first};
    }
  }

  lemma TotalInc<K(!new)>(v: Vector<K>, l: Label<K>)
    ensures Total(Inc(v, l)) == Total(v) + 1
  {
    TotalSplit(Inc(v, l), l);
    if l in v {
      TotalSplit(v, l);
      assert Inc(v, l) - {l} == v - {l};
    } else {
      assert Inc(v, l) - {l} == v;
    }
  }

  /** Counted calls and calls in flight together are all calls made. */
  lemma {:induction false} NothingLost<K(!new)>(limits: Limits<K>, actions: seq<Action<K>>)
    ensures var s := Run(limits, actions); Total(s.family.counts) + |s.pending| == |s.log|
  {
    if actions != [] {
      var before, a := Run(limits, actions[..|actions|-1]), actions[|actions|-1];
      NothingLost(limits, actions[..|actions|-1]);
      if a.Count? {
        TotalInc(before.family.counts, a.pendingLabel);
      }
    }
  }

  ghost function WithResult<K>(v: Vector<K>, result: string): Vector<K> {
    map l | l in v && l.result == result :: v[l]
  }

  /** The sum of a vector's counters with the given result. */
  ghost function Sum<K(!new)>(v: Vector<K>, result: string): nat {
    Total(WithResult(v, result))
  }

  lemma SumInc<K(!new)>(v: Vector<K>, l: Label<K>, result: string)
    ensures Sum(Inc(v, l), result) == Sum(v, result) + if l.result == result then 1 else 0
  {
    if l.result == result {
      assert WithResult(Inc(v, l), result) == Inc(WithResult(v, result), l);
      TotalInc(WithResult(v, result), l);
    } else {
      assert WithResult(Inc(v, l), result) == WithResult(v, result);
    }
  }

  /** A multiset of labels as a vector. */
  function Tally<K>(labels: multiset<Label<K>>): Vector<K> {
    map l | l in labels :: labels[l]
  }

  function HasResult<K>(result: string): Label<K> -> bool {
    (l: Label<K>) => l.result == result
  }

  /** For every result, what is counted and what is in flight together are the calls made with it. */
  lemma {:induction false} NothingLostPerResult<K(!new)>(limits: Limits<K>, actions: seq<Action<K>>, result: string)
    ensures var s := Run(limits, actions);
            Sum(s.family.counts, result) + Sum(Tally(s.pending), result) == |Filter(s.log, HasResult(result))|
  {
    if actions == [] {
      assert WithResult<K>(map[], result) == map[] && Tally<K>(multiset{}) == map[];
    } else {
      var before, a := Run(limits, actions[..|actions|-1]), actions[|actions|-1];
      NothingLostPerResult(limits, actions[..|actions|-1], result);
      match a
      case Lock(key, r) =>
        TallyMore(before.pending, Label(Place(limits, before.family.admitted, key), r), result);
        FilterLast(before.log, Label(key, r), HasResult(result));
      case Count(l) =>
        if l in before.pending {
          TallyMore(before.pending - multiset{l}, l, result);
          assert before.pending - multiset{l} + multiset{l} == before.pending;
          SumInc(before.family.counts, l, result);
        }
    }
  }

  lemma TallyMore<K(!new)>(labels: multiset<Label<K>>, l: Label<K>, result: string)
    ensures Sum(Tally(labels + multiset{l}), result) == Sum(Tally(labels), result) + if l.result == result then 1 else 0
  {
    assert Tally(labels + multiset{l}) == Inc(Tally(labels), l);
    SumInc(Tally(labels), l, result);
  }

  // ---------------------------------------------------------------- how many labels there can be

  function Product<K(==)>(keys: set<K>, results: set<string>): set<Label<K>> {
    set k, r | k in keys && r in results :: Label(k, r)
  }

  lemma {:induction false} ProductSize<K>(keys: set<K>, results: set<string>)
    ensures |Product(keys, results)| == |keys| * |results|
    decreases |keys|
  {
    if keys == {} {
      assert Product(keys, results) == {};
    } else {
      var k :| k in keys;
      var rest := keys - {k};
      ProductSize(rest, results);
      RowSize(k, results);
      assert Product(keys, results) == Product(rest, results) + Product({k}, results);
      assert Product(rest, results) !! Product({k}, results);
      OneMoreRow(|rest|, |results|);
    }
  }

  lemma OneMoreRow(rows: nat, n: nat)
    ensures rows * n + n == (rows + 1) * n
  {
  }

  lemma {:induction false} RowSize<K>(k: K, results: set<string>)
    ensures |Product({k}, results)| == |results|
    decreases |results|
  {
    if results == {} {
      assert Product({k}, results) == {};
    } else {
      var r :| r in results;
      RowSize(k, results - {r});
      assert Product({k}, results) == Product({k}, results - {r}) + {Label(k, r)};
    }
  }

  /** The only labels in use or in flight are admitted keys, exempt keys and `other`, with the given results. */
  ghost predicate Uses<K(!new)>(limits: Limits<K>, s: State<K>, results: set<string>) {
    var all := Product(s.family.admitted + (limits.exempt + {limits.other}), results);
    s.family.counts.Keys <= all && forall l :: l in s.pending ==> l in all
  }

  lemma StepUses<K(!new)>(limits: Limits<K>, s: State<K>, a: Action<K>, results: set<string>)
    requires Uses(limits, s, results) && (a.Lock? ==> a.result in results)
    ensures Uses(limits, Step(limits, s, a), results)
  {
  }

  lemma {:induction false} LabelsInUse<K(!new)>(limits: Limits<K>, actions: seq<Action<K>>, results: set<string>)
    requires forall a :: a in actions && a.Lock? ==> a.result in results
    ensures Uses(limits, Run(limits, actions), results)
  {
    if actions != [] {
      var front, a := actions[..|actions|-1], actions[|actions|-1];
      LabelsInUse(limits, front, results);
      assert a in actions;
      StepUses(limits, Run(limits, front), a, results);
    }
  }

  /** The number of labels stays bounded by the places, the keys that need none, and the results. */
  lemma LabelsBounded<K(!new)>(limits: Limits<K>, actions: seq<Action<K>>, results: set<string>)
    requires limits.max >= 0
    requires forall a :: a in actions && a.Lock? ==> a.result in results
    ensures |Run(limits, actions).family.counts.Keys| <= (limits.max + |limits.exempt + {limits.other}|) * |results|
  {
    AdmittedBounded(limits, actions);
    LabelsInUse(limits, actions, results);
    UsesBounded(limits, Run(limits, actions), results);
  }

  lemma UsesBounded<K(!new)>(limits: Limits<K>, s: State<K>, results: set<string>)
    requires Uses(limits, s, results) && |s.family.admitted| <= limits.max
    ensures |s.family.counts.Keys| <= (limits.max + |limits.exempt + {limits.other}|) * |results|
  {
    ProductBound(s.family.admitted, limits.exempt + {limits.other}, results, s.family.counts.Keys, limits.max);
  }

  lemma AdmittedBounded<K(!new)>(limits: Limits<K>, actions: seq<Action<K>>)
    requires limits.max >= 0
    ensures |Run(limits, actions).family.admitted| <= limits.max
  {
  }

  lemma ProductBound<K>(admitted: set<K>, extra: set<K>, results: set<string>, labels: set<Label<K>>, max: nat)
    requires labels <= Product(admitted + extra, results) && |admitted| <= max
    ensures |labels| <= (max + |extra|) * |results|
  {
    UnionSize(admitted, extra);
    ProductSize(admitted + extra, results);
    SubsetSize(labels, Product(admitted + extra, results));
    MulMonotone(|admitted + extra|, max + |extra|, |results|);
  }

  lemma UnionSize<T>(a: set<T>, b: set<T>)
    ensures |a + b| <= |a| + |b|
  {
  }

  lemma {:induction false} SubsetSize<T>(a: set<T>, b: set<T>)
    requires a <= b
    ensures |a| <= |b|
  {
    assert b == a + (b - a);
  }

  lemma MulMonotone(a: nat, b: nat, c: nat)
    requires a <= b
    ensures a * c <= b * c
  {
  }

  /** A call with nothing in between its steps is one of the interleavings. */
  lemma SequentialCall<K(!new)>(limits: Limits<K>, actions: seq<Action<K>>, key: K, result: string)
    ensures var s := Run(limits, actions);
            var l := Label(Place(limits, s.family.admitted, key), result);
            var t := Run(limits, actions + [Lock(key, result), Count(l)]);
            && t.family == Observe(limits, s.family, key, result)
            && t.pending == s.pending
            && t.log == s.log + [Label(key, result)]
  {
    var l := Label(Place(limits, Run(limits, actions).family.admitted, key), result);
    RunStep(limits, actions, Lock(key, result));
    RunStep(limits, actions + [Lock(key, result)], Count(l));
    assert actions + [Lock(key, result), Count(l)] == actions + [Lock(key, result)] + [Count(l)];
  }

  lemma RunStep<K(!new)>(limits: Limits<K>, actions: seq<Action<K>>, a: Action<K>)
    ensures Run(limits, actions + [a]) == Step(limits, Run(limits, actions), a)
  {
  }
}
