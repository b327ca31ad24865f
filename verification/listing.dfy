/**
 * The stream pipelines behind the listings: `filter`, and `sorted` by a
 * comparator on an integer key (a stable sort).
 */
module Listing {
  import opened Outcome
  import opened StatusEnum
  import opened Entities

  /** stream().filter(p).collect(toList()): the elements satisfying `p`, in their order. */
  function Filter<T>(s: seq<T>, p: T -> bool): (r: seq<T>)
    ensures |r| <= |s|
    ensures forall i :: 0 <= i < |r| ==> p(r[i]) && r[i] in s
  {
    if s == [] then []
    else
      var rest := Filter(s[1..], p);
      if p(s[0]) then [s[0]] + rest else rest
  }

  /** Filtering keeps each element that satisfies `p` exactly as often as it occurs, and drops the others. */
  lemma {:induction false} FilterMultiset<T>(s: seq<T>, p: T -> bool)
    ensures forall x :: multiset(Filter(s, p))[x] == if p(x) then multiset(s)[x] else 0
  {
    if s != [] {
      FilterMultiset(s[1..], p);
      assert s == [s[0]] + s[1..];
    }
  }

  /** Filtering keeps the input order: it distributes over concatenation. */
  lemma {:induction false} FilterAppend<T>(a: seq<T>, b: seq<T>, p: T -> bool)
    ensures Filter(a + b, p) == Filter(a, p) + Filter(b, p)
  {
    if a == [] {
      assert a + b == b;
    } else {
      var ab := a + b;
      assert ab[0] == a[0] && ab[1..] == a[1..] + b;
      FilterAppend(a[1..], b, p);
      if p(a[0]) {
        assert Filter(ab, p) == [a[0]] + Filter(a[1..] + b, p);
        assert Filter(a, p) == [a[0]] + Filter(a[1..], p);
      } else {
        assert Filter(ab, p) == Filter(a[1..] + b, p);
        assert Filter(a, p) == Filter(a[1..], p);
      }
    }
  }

  /** The keys never decrease along the sequence. */
  predicate SortedBy<T>(s: seq<T>, key: T -> int) {
    forall i, j :: 0 <= i < j < |s| ==> key(s[i]) <= key(s[j])
  }

  /** Puts `x` before the first element whose key is not smaller than its own. */
  function Insert<T>(x: T, s: seq<T>, key: T -> int): (r: seq<T>)
    requires SortedBy(s, key)
    ensures SortedBy(r, key)
    ensures multiset(r) == multiset(s) + multiset{x}
  {
    if s == [] then [x]
    else if key(x) <= key(s[0]) then [x] + s
    else
      var rest := Insert(x, s[1..], key);
      assert s == [s[0]] + s[1..];
      assert forall i :: 0 <= i < |rest| ==> key(s[0]) <= key(rest[i]) by {
        forall y | y in multiset(s[1..]) + multiset{x} ensures key(s[0]) <= key(y) {
          if y != x {
            var k :| 0 <= k < |s[1..]| && s[1..][k] == y;
            assert s[k + 1] == y;
          }
        }
        LowerBoundInMultiset(rest, multiset(s[1..]) + multiset{x}, key, key(s[0]));
      }
      [s[0]] + rest
  }

  /** Every element of a sequence drawn from a multiset bounded below by `b` is bounded below by `b`. */
  lemma {:induction false} LowerBoundInMultiset<T>(r: seq<T>, m: multiset<T>, key: T -> int, b: int)
    requires multiset(r) == m
    requires forall y :: y in m ==> b <= key(y)
    ensures forall i :: 0 <= i < |r| ==> b <= key(r[i])
  {
    forall i | 0 <= i < |r| ensures b <= key(r[i]) {
      assert r[i] in multiset(r);
    }
  }

  /** sorted(Comparator.comparing(key)): insertion sort, earlier elements first among equal keys. */
  function SortBy<T>(s: seq<T>, key: T -> int): (r: seq<T>)
    ensures SortedBy(r, key)
    ensures multiset(r) == multiset(s)
  {
    if s == [] then []
    else
      assert s == [s[0]] + s[1..];
      Insert(s[0], SortBy(s[1..], key), key)
  }

  /** The test "has key `k`". */
  function KeyIs<T>(key: T -> int, k: int): T -> bool {
    (x: T) => key(x) == k
  }

  /** Filtering a one-element sequence keeps it exactly when its element satisfies `p`. */
  lemma {:induction false} FilterSingle<T>(x: T, p: T -> bool)
    ensures Filter([x], p) == if p(x) then [x] else []
  {
    assert [x][1..] == [];
  }

  /** Inserting `x` places it before every element of the sorted sequence with the same key. */
  lemma {:induction false} InsertStable<T>(x: T, s: seq<T>, key: T -> int, k: int)
    requires SortedBy(s, key)
    ensures Filter(Insert(x, s, key), KeyIs(key, k)) == Filter([x], KeyIs(key, k)) + Filter(s, KeyIs(key, k))
  {
    var p := KeyIs(key, k);
    if s == [] {
      assert [x] + s == [x];
    } else if key(x) <= key(s[0]) {
      FilterAppend([x], s, p);
    } else {
      var rest := Insert(x, s[1..], key);
      assert Insert(x, s, key) == [s[0]] + rest;
      assert s == [s[0]] + s[1..];
      InsertStable(x, s[1..], key, k);
      FilterAppend([s[0]], rest, p);
      FilterAppend([s[0]], s[1..], p);
      FilterSingle(s[0], p);
      FilterSingle(x, p);
      if p(x) {
        assert !p(s[0]);
        assert Filter([s[0]], p) == [];
      } else {
        assert Filter([x], p) == [];
      }
    }
  }

  /** The sort is stable: the elements of any one key keep their input order. */
  lemma {:induction false} SortByStable<T>(s: seq<T>, key: T -> int, k: int)
    ensures Filter(SortBy(s, key), KeyIs(key, k)) == Filter(s, KeyIs(key, k))
  {
    if s != [] {
      assert s == [s[0]] + s[1..];
      SortByStable(s[1..], key, k);
      InsertStable(s[0], SortBy(s[1..], key), key, k);
      FilterAppend([s[0]], s[1..], KeyIs(key, k));
    }
  }

  /** Filtering keeps the elements in their order: a strictly increasing key stays strictly increasing. */
  lemma {:induction false} FilterKeepsOrder<T>(s: seq<T>, p: T -> bool, key: T -> int)
    requires forall i, j :: 0 <= i < j < |s| ==> key(s[i]) < key(s[j])
    ensures forall i, j :: 0 <= i < j < |Filter(s, p)| ==> key(Filter(s, p)[i]) < key(Filter(s, p)[j])
  {
    if s != [] {
      var rest := Filter(s[1..], p);
      FilterKeepsOrder(s[1..], p, key);
      forall i | 0 <= i < |rest| ensures key(s[0]) < key(rest[i]) {
        var k :| 0 <= k < |s[1..]| && s[1..][k] == rest[i];
        assert s[k + 1] == rest[i];
      }
      if p(s[0]) {
        var r := [s[0]] + rest;
        assert Filter(s, p) == r;
        forall i, j | 0 <= i < j < |r| ensures key(r[i]) < key(r[j]) {
          assert r[j] == rest[j - 1];
          if i > 0 {
            assert r[i] == rest[i - 1];
          }
        }
      } else {
        assert Filter(s, p) == rest;
      }
    }
  }

  /** In a sequence without repeated elements every element occurs exactly once. */
  lemma {:induction false} MultiplicityOfDistinct<T>(s: seq<T>)
    requires forall i, j :: 0 <= i < j < |s| ==> s[i] != s[j]
    ensures forall x :: multiset(s)[x] == if x in s then 1 else 0
  {
    if s != [] {
      MultiplicityOfDistinct(s[1..]);
      assert s == [s[0]] + s[1..];
      assert s[0] !in s[1..] by {
        forall k | 0 <= k < |s[1..]| ensures s[1..][k] != s[0] {
          assert s[1..][k] == s[k + 1];
        }
      }
    }
  }

  /** Filtering keeps everything when every element satisfies the predicate. */
  lemma {:induction false} FilterAll<T>(s: seq<T>, p: T -> bool)
    requires forall i :: 0 <= i < |s| ==> p(s[i])
    ensures Filter(s, p) == s
  {
    if s != [] {
      assert s == [s[0]] + s[1..];
      FilterAll(s[1..], p);
    }
  }

  /** The test `t.getStatus() == status`. */
  function HasStatus(st: Option<Status>): TaskReport -> bool {
    (r: TaskReport) => r.status == st
  }

  /** The reports whose status is `st`; a null argument selects the reports without a status. */
  function ReportsWithStatus(all: seq<TaskReport>, st: Option<Status>): seq<TaskReport> {
    Filter(all, HasStatus(st))
  }

  /** getAllTaskExecutionReportsByStatus on the stored reports `all`: the matching ones, each as often as stored. */
  lemma {:induction false} ReportsWithStatusSpec(all: seq<TaskReport>, st: Option<Status>)
    ensures forall r :: r in ReportsWithStatus(all, st) <==> r in all && r.status == st
    ensures forall r :: multiset(ReportsWithStatus(all, st))[r] == if r.status == st then multiset(all)[r] else 0
  {
    FilterMultiset(all, HasStatus(st));
    forall r ensures r in ReportsWithStatus(all, st) <==> r in all && r.status == st {
      assert r in ReportsWithStatus(all, st) <==> r in multiset(ReportsWithStatus(all, st));
      assert r in all <==> r in multiset(all);
    }
  }

  /** A permutation of a sequence whose elements all satisfy `p` has only such elements. */
  lemma {:induction false} TimedAfterSort<T>(r: seq<T>, s: seq<T>, p: T -> bool)
    requires multiset(r) == multiset(s)
    requires forall i :: 0 <= i < |s| ==> p(s[i])
    ensures forall i :: 0 <= i < |r| ==> p(r[i])
  {
    forall i | 0 <= i < |r| ensures p(r[i]) {
      assert r[i] in multiset(s);
      var k :| 0 <= k < |s| && s[k] == r[i];
    }
  }

  /** The test `t.getExecutionTimeSeconds() != null`. */
  predicate ReportTimed(r: TaskReport) { r.executionTimeSeconds.Some? }
  predicate StepTimed(s: StepReport) { s.executionTimeSeconds.Some? }

  function ReportTime(r: TaskReport): int { r.executionTimeSeconds.GetOr(0) }
  function StepTime(s: StepReport): int { s.executionTimeSeconds.GetOr(0) }
  function StepStart(s: StepReport): int { s.startDateTime }

  /** getAllTaskExecutionReportsOrderedByExeTime on the stored reports `all`. */
  function ReportsByExecutionTime(all: seq<TaskReport>): (r: seq<TaskReport>)
    ensures forall i :: 0 <= i < |r| ==> r[i].executionTimeSeconds.Some?
    ensures forall i, j :: 0 <= i < j < |r| ==> r[i].executionTimeSeconds.value <= r[j].executionTimeSeconds.value
    ensures forall x :: multiset(r)[x] == if x.executionTimeSeconds.Some? then multiset(all)[x] else 0
  {
    var timed := Filter(all, ReportTimed);
    FilterMultiset(all, ReportTimed);
    var r := SortBy(timed, ReportTime);
    TimedAfterSort(r, timed, ReportTimed);
    r
  }

  /** The step listing by start time: a permutation of the steps, ascending by start time. */
  function StepsByStartTime(steps: seq<StepReport>): (r: seq<StepReport>)
    ensures multiset(r) == multiset(steps)
    ensures forall i, j :: 0 <= i < j < |r| ==> r[i].startDateTime <= r[j].startDateTime
  {
    SortBy(steps, StepStart)
  }

  /** The step listing by execution time: the timed steps only, ascending by time. */
  function StepsByExecutionTime(steps: seq<StepReport>): (r: seq<StepReport>)
    ensures forall i :: 0 <= i < |r| ==> r[i].executionTimeSeconds.Some?
    ensures forall i, j :: 0 <= i < j < |r| ==> r[i].executionTimeSeconds.value <= r[j].executionTimeSeconds.value
    ensures forall x :: multiset(r)[x] == if x.executionTimeSeconds.Some? then multiset(steps)[x] else 0
  {
    var timed := Filter(steps, StepTimed);
    FilterMultiset(steps, StepTimed);
    var r := SortBy(timed, StepTime);
    TimedAfterSort(r, timed, StepTimed);
    r
  }
}
