/** Order-keeping operations on sequences shared by the pattern lists, the cache and the counters. */
module Seqs {
  import opened Results

  ghost predicate Distinct<T>(s: seq<T>) {
    forall i, j :: 0 <= i < j < |s| ==> s[i] != s[j]
  }

  /** The sequence with position `k` taken out. */
  function Pop<T>(s: seq<T>, k: nat): (r: seq<T>)
    requires k < |s|
    ensures |r| == |s| - 1
    ensures forall i :: 0 <= i < |r| ==> r[i] == s[if i < k then i else i + 1]
  {
    s[..k] + s[k+1..]
  }

  lemma PopDistinct<T>(s: seq<T>, k: nat)
    requires k < |s| && Distinct(s)
    ensures Distinct(Pop(s, k))
    ensures forall x :: x in Pop(s, k) <==> x in s && x != s[k]
  {
  }

  /** Each element once, in the order of first occurrences. */
  function Dedupe<T(==, !new)>(s: seq<T>): (r: seq<T>)
    ensures forall x :: x in r <==> x in s
    ensures Distinct(r)
  {
    if s == [] then []
    else
      var front := Dedupe(s[..|s|-1]);
      var x := s[|s|-1];
      assert s == s[..|s|-1] + [x];
      if x in front then front else front + [x]
  }

  /** The distinct elements stand in the order in which they first occur. */
  lemma {:induction false} DedupePositions<T(!new)>(s: seq<T>) returns (at: seq<nat>)
    ensures |at| == |Dedupe(s)|
    ensures forall i :: 0 <= i < |at| ==> at[i] < |s| && Dedupe(s)[i] == s[at[i]] && s[at[i]] !in s[..at[i]]
    ensures forall i, j :: 0 <= i < j < |at| ==> at[i] < at[j]
  {
    at := [];
    if s != [] {
      var front, x := s[..|s|-1], s[|s|-1];
      at := DedupePositions(front);
      forall i | 0 <= i < |at| ensures Dedupe(front)[i] == s[at[i]] && s[at[i]] !in s[..at[i]] {
        assert front[..at[i]] == s[..at[i]];
      }
      if x !in Dedupe(front) {
        at := at + [|front|];
      }
    }
  }

  function Filter<T(!new)>(s: seq<T>, keep: T -> bool): (r: seq<T>)
    ensures forall x :: x in r <==> x in s && keep(x)
  {
    if s == [] then []
    else
      var front := Filter(s[..|s|-1], keep);
      var x := s[|s|-1];
      assert s == s[..|s|-1] + [x];
      if keep(x) then front + [x] else front
  }

  function Reverse<T>(s: seq<T>): (r: seq<T>)
    ensures |r| == |s|
    ensures forall i :: 0 <= i < |s| ==> r[i] == s[|s|-1-i]
  {
    if s == [] then [] else [s[|s|-1]] + Reverse(s[..|s|-1])
  }

  function Other<T(==)>(x: T): T -> bool {
    y => y != x
  }

  function Without<T(==, !new)>(s: seq<T>, x: T): seq<T> {
    Filter(s, Other(x))
  }

  lemma {:induction false} FilterAppend<T(!new)>(a: seq<T>, b: seq<T>, keep: T -> bool)
    ensures Filter(a + b, keep) == Filter(a, keep) + Filter(b, keep)
  {
    if b == [] {
      assert a + b == a;
    } else {
      FilterAppend(a, b[..|b|-1], keep);
      assert (a + b)[..|a+b|-1] == a + b[..|b|-1];
    }
  }

  lemma {:induction false} FilterAll<T(!new)>(s: seq<T>, keep: T -> bool)
    requires forall x :: x in s ==> keep(x)
    ensures Filter(s, keep) == s
  {
    if s != [] {
      FilterAll(s[..|s|-1], keep);
      assert s == s[..|s|-1] + [s[|s|-1]];
    }
  }

  lemma {:induction false} FilterNone<T(!new)>(s: seq<T>, keep: T -> bool)
    requires forall x :: x in s ==> !keep(x)
    ensures Filter(s, keep) == []
  {
    if s != [] {
      FilterNone(s[..|s|-1], keep);
    }
  }

  lemma {:induction false} DedupeFixed<T(!new)>(s: seq<T>)
    requires Distinct(s)
    ensures Dedupe(s) == s
  {
    if s != [] {
      DedupeFixed(s[..|s|-1]);
      assert s == s[..|s|-1] + [s[|s|-1]];
    }
  }

  /** Reading one more element in front moves it to the front of the distinct elements. */
  lemma {:induction false} DedupeCons<T(!new)>(x: T, s: seq<T>)
    ensures Dedupe([x] + s) == [x] + Without(Dedupe(s), x)
  {
    if s == [] {
      assert [x] + s == [x];
      assert Dedupe([x][..0]) == [];
    } else {
      var front, y := s[..|s|-1], s[|s|-1];
      DedupeCons(x, front);
      assert ([x] + s)[..|[x] + s| - 1] == [x] + front;
      FilterLast(Dedupe(front), y, Other(x));
    }
  }

  /** What a filter keeps comes from increasing positions. */
  lemma {:induction false} FilterPositions<T(!new)>(s: seq<T>, keep: T -> bool) returns (at: seq<nat>)
    ensures |at| == |Filter(s, keep)|
    ensures forall i :: 0 <= i < |at| ==> at[i] < |s| && Filter(s, keep)[i] == s[at[i]]
    ensures forall i, j :: 0 <= i < j < |at| ==> at[i] < at[j]
  {
    at := [];
    if s != [] {
      at := FilterPositions(s[..|s|-1], keep);
      FilterLast(s[..|s|-1], s[|s|-1], keep);
      if keep(s[|s|-1]) {
        at := at + [|s|-1];
      }
    }
  }

  lemma {:induction false} SameFilter<T(!new)>(s: seq<T>, f: T -> bool, g: T -> bool)
    requires forall x :: x in s ==> f(x) == g(x)
    ensures Filter(s, f) == Filter(s, g)
  {
    if s != [] {
      SameFilter(s[..|s|-1], f, g);
    }
  }

  /** Taking a value out and filtering commute. */
  lemma {:induction false} WithoutFilter<T(!new)>(s: seq<T>, keep: T -> bool, x: T)
    ensures Without(Filter(s, keep), x) == Filter(Without(s, x), keep)
  {
    if s != [] {
      var front, last := s[..|s|-1], s[|s|-1];
      WithoutFilter(front, keep, x);
      FilterLast(Filter(front, keep), last, Other(x));
      FilterLast(Without(front, x), last, keep);
    }
  }

  lemma FilterLast<T(!new)>(s: seq<T>, x: T, keep: T -> bool)
    ensures Filter(s + [x], keep) == Filter(s, keep) + if keep(x) then [x] else []
  {
  }

  /** Overwriting one element changes how many a filter keeps by that element alone. */
  lemma {:induction false} FilterUpdate<T(!new)>(s: seq<T>, k: nat, x: T, keep: T -> bool)
    requires k < |s|
    ensures |Filter(s[k := x], keep)| + (if keep(s[k]) then 1 else 0) == |Filter(s, keep)| + if keep(x) then 1 else 0
  {
    var front, last := s[..|s|-1], s[|s|-1];
    if k == |s| - 1 {
      assert s[k := x] == front + [x];
      FilterLast(front, x, keep);
    } else {
      FilterUpdate(front, k, x, keep);
      assert s[k := x][..|s|-1] == front[k := x];
    }
  }

  /** A filter that is one of two others, never both, keeps as many elements as they do together. */
  lemma {:induction false} FilterSplit<T(!new)>(s: seq<T>, whole: T -> bool, one: T -> bool, two: T -> bool)
    requires forall x :: x in s ==> (whole(x) <==> one(x) || two(x)) && !(one(x) && two(x))
    ensures |Filter(s, whole)| == |Filter(s, one)| + |Filter(s, two)|
  {
    if s != [] {
      FilterSplit(s[..|s|-1], whole, one, two);
    }
  }

  lemma PopFront<T>(s: seq<T>, last: T, k: nat)
    requires k < |s|
    ensures Pop(s + [last], k) == Pop(s, k) + [last]
  {
  }

  /** Taking a value out of a sequence without repeats is popping its position. */
  lemma {:induction false} WithoutPops<T(!new)>(s: seq<T>, k: nat)
    requires Distinct(s) && k < |s|
    ensures Without(s, s[k]) == Pop(s, k)
  {
    var front, last := s[..|s|-1], s[|s|-1];
    assert s == front + [last];
    FilterLast(front, last, Other(s[k]));
    if k == |s| - 1 {
      FilterAll(front, Other(s[k]));
      assert Pop(s, k) == front;
    } else {
      WithoutPops(front, k);
      PopFront(front, last, k);
    }
  }

  lemma WithoutAbsent<T(!new)>(s: seq<T>, x: T)
    requires x !in s
    ensures Without(s, x) == s
  {
    FilterAll(s, Other(x));
  }

  lemma WithoutPrefix<T(!new)>(a: seq<T>, b: seq<T>, x: T)
    requires a <= b
    ensures Without(a, x) <= Without(b, x)
  {
    FilterAppend(a, b[|a|..], Other(x));
    assert b == a + b[|a|..];
  }

  /** A sequence without repeats is no longer than a set that holds its elements. */
  lemma {:induction false} DistinctFits<T>(s: seq<T>, all: set<T>)
    requires Distinct(s) && forall x :: x in s ==> x in all
    ensures |s| <= |all|
  {
    if s != [] {
      var x := s[|s|-1];
      DistinctFits(s[..|s|-1], all - {x});
      assert |all - {x}| == |all| - 1;
    }
  }

  /** A partial function applied to every element in order, or the error of the first element that has none. */
  function TryEach<T, U, E>(f: T -> Result<U, E>, s: seq<T>): Result<seq<U>, E> {
    if s == [] then Ok([])
    else
      match TryEach(f, s[..|s|-1])
      case Err(e) => Err(e)
      case Ok(front) =>
        match f(s[|s|-1])
        case Err(e) => Err(e)
        case Ok(x) => Ok(front + [x])
  }

  lemma TryEachOne<T, U, E>(f: T -> Result<U, E>, x: T)
    requires f(x).Ok?
    ensures TryEach(f, [x]) == Ok([f(x).value])
  {
    var one := [x];
    assert one[..|one|-1] == [] && one[|one|-1] == x;
    assert TryEach(f, one[..|one|-1]) == Ok([]);
    var none: seq<U> := [];
    assert none + [f(x).value] == [f(x).value];
  }

  /** The first failing element decides the error of the whole sequence. */
  lemma {:induction false} TryEachFails<T, U, E>(f: T -> Result<U, E>, s: seq<T>, k: nat)
    requires k <= |s| && TryEach(f, s[..k]).Err?
    ensures TryEach(f, s) == TryEach(f, s[..k])
  {
    if k == |s| {
      assert s[..k] == s;
    } else {
      var front := s[..|s|-1];
      assert front[..k] == s[..k];
      TryEachFails(f, front, k);
    }
  }

  /** A sequence fails exactly when some element does, and with the error of the first that does. */
  lemma {:induction false} TryEachExactly<T, U, E>(f: T -> Result<U, E>, s: seq<T>)
    ensures TryEach(f, s).Ok? <==> forall i :: 0 <= i < |s| ==> f(s[i]).Ok?
    ensures TryEach(f, s).Err? ==>
              exists k :: 0 <= k < |s| && f(s[k]) == Err(TryEach(f, s).error) && forall i :: 0 <= i < k ==> f(s[i]).Ok?
  {
    if s != [] {
      var front := s[..|s|-1];
      TryEachExactly(f, front);
      assert forall i :: 0 <= i < |front| ==> front[i] == s[i];
    }
  }

  lemma {:induction false} TryEachElement<T, U, E>(f: T -> Result<U, E>, s: seq<T>)
    requires TryEach(f, s).Ok?
    ensures var r := TryEach(f, s).value;
            |r| == |s| && forall i :: 0 <= i < |s| ==> f(s[i]) == Ok(r[i])
  {
    if s != [] {
      TryEachElement(f, s[..|s|-1]);
    }
  }

  lemma {:induction false} TryEachFixed<T, E>(f: T -> Result<T, E>, s: seq<T>)
    requires forall x :: x in s ==> f(x) == Ok(x)
    ensures TryEach(f, s) == Ok(s)
  {
    if s != [] {
      TryEachFixed(f, s[..|s|-1]);
      assert s == s[..|s|-1] + [s[|s|-1]];
    }
  }
}
