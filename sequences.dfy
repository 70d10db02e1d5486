/**
 * Sequence helpers shared by the client and the reporting commands:
 * Python's `next((item for item in s if p(item)), None)` first-match lookup
 * and the row filter that pandas' boolean indexing performs.
 */
module Sequences {
  import opened Wrappers

  /** Index of the first element satisfying `p`, if any. */
  function FirstIndexWhere<T>(s: seq<T>, p: T -> bool): (r: Option<nat>)
    ensures r.Some? ==> r.value < |s| && p(s[r.value])
    ensures r.Some? ==> forall j :: 0 <= j < r.value ==> !p(s[j])
    ensures r.None? ==> forall j :: 0 <= j < |s| ==> !p(s[j])
  {
    if s == [] then None
    else if p(s[0]) then Some(0)
    else match FirstIndexWhere(s[1..], p)
      case None => None
      case Some(i) => Some(i + 1)
  }

  /** `next((item for item in s if p(item)), None)`: the first element satisfying `p`, if any. */
  function FirstWhere<T>(s: seq<T>, p: T -> bool): Option<T> {
    match FirstIndexWhere(s, p)
    case None => None
    case Some(i) => Some(s[i])
  }

  /** FirstWhere finds nothing exactly when no element qualifies, and otherwise the first that does. */
  lemma FirstWhereMeaning<T>(s: seq<T>, p: T -> bool)
    ensures FirstWhere(s, p).None? <==> forall j :: 0 <= j < |s| ==> !p(s[j])
    ensures FirstWhere(s, p).Some? ==>
              exists i :: 0 <= i < |s| && s[i] == FirstWhere(s, p).value && p(s[i]) &&
                          forall j :: 0 <= j < i ==> !p(s[j])
  {
    var r := FirstIndexWhere(s, p);
    if r.Some? {
      assert s[r.value] == FirstWhere(s, p).value;
    }
  }

  /** The elements of `s` that satisfy `p`, in their original order. */
  function Filter<T>(s: seq<T>, p: T -> bool): (r: seq<T>)
    ensures |r| <= |s|
    ensures forall j :: 0 <= j < |r| ==> r[j] in s && p(r[j])
    ensures forall j :: 0 <= j < |s| && p(s[j]) ==> s[j] in r
  {
    if s == [] then [] else (if p(s[0]) then [s[0]] else []) + Filter(s[1..], p)
  }

  /** Filtering distributes over concatenation, so it keeps relative order. */
  lemma {:induction false} FilterAppend<T>(a: seq<T>, b: seq<T>, p: T -> bool)
    ensures Filter(a + b, p) == Filter(a, p) + Filter(b, p)
  {
    if a == [] {
      assert a + b == b;
    } else {
      assert (a + b)[1..] == a[1..] + b;
      FilterAppend(a[1..], b, p);
    }
  }

  /** A filter that every element passes changes nothing. */
  lemma {:induction false} FilterKeepsAll<T>(s: seq<T>, p: T -> bool)
    requires forall j :: 0 <= j < |s| ==> p(s[j])
    ensures Filter(s, p) == s
  {
    if s != [] {
      FilterKeepsAll(s[1..], p);
    }
  }

  /** Filtering twice by the same predicate is filtering once. */
  lemma FilterIdempotent<T>(s: seq<T>, p: T -> bool)
    ensures Filter(Filter(s, p), p) == Filter(s, p)
  {
    var r := Filter(s, p);
    FilterKeepsAll(r, p);
  }

  /** A predicate and its negation split a sequence: the two parts add up to it. */
  lemma {:induction false} FilterPartition<T>(s: seq<T>, p: T -> bool, q: T -> bool)
    requires forall x :: q(x) == !p(x)
    ensures |Filter(s, p)| + |Filter(s, q)| == |s|
  {
    if s != [] {
      FilterPartition(s[1..], p, q);
    }
  }

  /** Both tests at once. */
  function Both<T>(p: T -> bool, q: T -> bool): T -> bool {
    x => p(x) && q(x)
  }

  /** Filtering by `p` and then by `q` is filtering by both. */
  lemma {:induction false} FilterFilter<T>(s: seq<T>, p: T -> bool, q: T -> bool)
    ensures Filter(Filter(s, p), q) == Filter(s, Both(p, q))
  {
    if s != [] {
      var head := if p(s[0]) then [s[0]] else [];
      FilterAppend(head, Filter(s[1..], p), q);
      FilterFilter(s[1..], p, q);
      if p(s[0]) {
        assert Filter(head, q) == (if q(s[0]) then [s[0]] else []) + Filter(head[1..], q);
      }
    }
  }

  /** The positions of `s` whose element satisfies `p`. */
  function Positions<T>(s: seq<T>, p: T -> bool): set<int> {
    set i | 0 <= i < |s| && p(s[i])
  }

  /** One more element adds its position exactly when it passes. */
  lemma PositionsSnoc<T>(s: seq<T>, x: T, p: T -> bool)
    ensures |s| !in Positions(s, p)
    ensures Positions(s + [x], p) == Positions(s, p) + if p(x) then {|s|} else {}
  {
    forall i ensures i in Positions(s + [x], p) <==> i in Positions(s, p) + if p(x) then {|s|} else {} {
      if 0 <= i < |s| {
        assert (s + [x])[i] == s[i];
      }
    }
  }

  /** One more element is kept at the end exactly when it passes. */
  lemma FilterSnoc<T>(s: seq<T>, x: T, p: T -> bool)
    ensures Filter(s + [x], p) == Filter(s, p) + if p(x) then [x] else []
  {
    FilterAppend(s, [x], p);
    assert [x][1..] == [];
  }

  /** The length of a filter is the number of positions whose element passes it. */
  lemma {:induction false} FilterSize<T>(s: seq<T>, p: T -> bool)
    ensures |Filter(s, p)| == |Positions(s, p)|
  {
    if s != [] {
      var init, x := s[..|s| - 1], s[|s| - 1];
      assert s == init + [x];
      FilterSize(init, p);
      FilterSnoc(init, x, p);
      PositionsSnoc(init, x, p);
    }
  }

  /**
   * A report built row by row, where computing a row may raise: the rows in order, or the
   * error of the first row that raised (the rows after it are never reached).
   */
  function Collect<R, E>(rows: seq<Result<R, E>>): Result<seq<R>, E> {
    if rows == [] then Success([])
    else
      match Collect(rows[..|rows| - 1])
      case Failure(e) => Failure(e)
      case Success(values) =>
        match rows[|rows| - 1]
        case Failure(e) => Failure(e)
        case Success(v) => Success(values + [v])
  }

  /** One more row: the report so far extended by it, or the first error. */
  lemma CollectSnoc<R, E>(rows: seq<Result<R, E>>, n: nat)
    requires n < |rows|
    ensures Collect(rows[..n + 1]) ==
            match Collect(rows[..n])
            case Failure(e) => Failure(e)
            case Success(values) =>
              match rows[n]
              case Failure(e) => Failure(e)
              case Success(v) => Success(values + [v])
  {
    assert rows[..n + 1][..n] == rows[..n];
  }

  /** Once a prefix has raised, the whole report raises the same error. */
  lemma {:induction false} CollectStopsAtFailure<R, E>(rows: seq<Result<R, E>>, n: nat)
    requires n <= |rows|
    requires Collect(rows[..n]).Failure?
    ensures Collect(rows) == Collect(rows[..n])
    decreases |rows| - n
  {
    if n < |rows| {
      assert rows[..n + 1][..n] == rows[..n];
      CollectStopsAtFailure(rows, n + 1);
    } else {
      assert rows[..n] == rows;
    }
  }

  /** A report that succeeds holds exactly the values of its rows. */
  lemma {:induction false} CollectSuccess<R, E>(rows: seq<Result<R, E>>)
    requires Collect(rows).Success?
    ensures |Collect(rows).value| == |rows|
    ensures forall i :: 0 <= i < |rows| ==> rows[i] == Success(Collect(rows).value[i])
  {
    if rows != [] {
      CollectSuccess(rows[..|rows| - 1]);
    }
  }

  /** A report that fails carries the error of its first failing row. */
  lemma {:induction false} CollectFailure<R, E>(rows: seq<Result<R, E>>) returns (k: nat)
    requires Collect(rows).Failure?
    ensures k < |rows| && rows[k] == Failure(Collect(rows).error)
    ensures forall j :: 0 <= j < k ==> rows[j].Success?
  {
    var init := rows[..|rows| - 1];
    if Collect(init).Failure? {
      k := CollectFailure(init);
      assert forall j :: 0 <= j < k ==> rows[j] == init[j];
    } else {
      CollectSuccess(init);
      k := |rows| - 1;
      assert forall j :: 0 <= j < k ==> rows[j] == init[j];
    }
  }
}
