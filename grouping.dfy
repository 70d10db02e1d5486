/**
 * The keys of a pandas `groupby` over a text column: each distinct value once, in
 * ascending order, where text is ordered as Python orders `str` (code point by code
 * point, a proper prefix before any longer text).
 */
module Grouping {
  import opened Wrappers

  /** Python's `a < b` on `str`. */
  predicate TextBefore(a: string, b: string) {
    if a == [] then b != []
    else b != [] && (a[0] < b[0] || (a[0] == b[0] && TextBefore(a[1..], b[1..])))
  }

  lemma {:induction false} TextBeforeIrreflexive(a: string)
    ensures !TextBefore(a, a)
  {
    if a != [] {
      TextBeforeIrreflexive(a[1..]);
    }
  }

  lemma {:induction false} TextBeforeTransitive(a: string, b: string, c: string)
    requires TextBefore(a, b) && TextBefore(b, c)
    ensures TextBefore(a, c)
  {
    if a != [] && a[0] == b[0] && b[0] == c[0] {
      TextBeforeTransitive(a[1..], b[1..], c[1..]);
    }
  }

  lemma {:induction false} TextBeforeTotal(a: string, b: string)
    requires a != b
    ensures TextBefore(a, b) || TextBefore(b, a)
  {
    if a != [] && b != [] && a[0] == b[0] {
      assert a == [a[0]] + a[1..] && b == [b[0]] + b[1..];
      TextBeforeTotal(a[1..], b[1..]);
    }
  }

  /** Strictly ascending, hence free of duplicates. */
  predicate Ascending(s: seq<string>) {
    forall i, j :: 0 <= i < j < |s| ==> TextBefore(s[i], s[j])
  }

  /** Adds one key to ascending keys, unless it is already there. */
  function InsertKey(key: string, keys: seq<string>): (r: seq<string>)
    requires Ascending(keys)
    ensures Ascending(r)
    ensures forall t :: t in r <==> t == key || t in keys
  {
    if keys == [] then [key]
    else if key == keys[0] then keys
    else if TextBefore(key, keys[0]) then
      forall j | 0 < j < |keys| ensures TextBefore(key, keys[j]) {
        TextBeforeTransitive(key, keys[0], keys[j]);
      }
      [key] + keys
    else
      TextBeforeTotal(key, keys[0]);
      var rest := InsertKey(key, keys[1..]);
      forall j | 0 <= j < |rest| ensures TextBefore(keys[0], rest[j]) {
        if rest[j] != key {
          assert rest[j] in rest;
          var i :| 0 <= i < |keys[1..]| && keys[1..][i] == rest[j];
          assert keys[i + 1] == rest[j];
        }
      }
      [keys[0]] + rest
  }

  /** The group keys of a column: its distinct values in ascending order. */
  function GroupKeys(column: seq<string>): (keys: seq<string>)
    ensures Ascending(keys)
    ensures forall t :: t in keys <==> t in column
  {
    if column == [] then []
    else InsertKey(column[|column| - 1], GroupKeys(column[..|column| - 1]))
  }

  /** A member of a non-empty sequence. */
  lemma SomeMember(s: seq<string>) returns (x: string)
    ensures s != [] ==> x in s
  {
    x := if s == [] then "" else s[0];
  }

  /** Ascending keys are determined by the values they hold. */
  lemma {:induction false} AscendingUnique(a: seq<string>, b: seq<string>)
    requires Ascending(a) && Ascending(b)
    requires forall t :: t in a <==> t in b
    ensures a == b
  {
    if a != [] && b != [] {
      if a[0] != b[0] {
        assert a[0] in a && b[0] in b;
        assert a[0] in b && b[0] in a;
        var i :| 0 <= i < |b| && b[i] == a[0];
        var j :| 0 <= j < |a| && a[j] == b[0];
        assert TextBefore(b[0], a[0]);
        assert TextBefore(a[0], b[0]);
        TextBeforeTransitive(a[0], b[0], a[0]);
        TextBeforeIrreflexive(a[0]);
        assert false;
      }
      TextBeforeIrreflexive(a[0]);
      forall t ensures t in a[1..] <==> t in b[1..] {
        if t in a[1..] {
          var i :| 0 <= i < |a[1..]| && a[1..][i] == t;
          assert a[i + 1] == t && TextBefore(a[0], t);
          assert t in b;
          var k :| 0 <= k < |b| && b[k] == t;
          assert k != 0;
          assert b[1..][k - 1] == t;
        }
        if t in b[1..] {
          var i :| 0 <= i < |b[1..]| && b[1..][i] == t;
          assert b[i + 1] == t && TextBefore(b[0], t);
          assert t in a;
          var k :| 0 <= k < |a| && a[k] == t;
          assert k != 0;
          assert a[1..][k - 1] == t;
        }
      }
      AscendingUnique(a[1..], b[1..]);
      assert a == [a[0]] + a[1..] && b == [b[0]] + b[1..];
    } else {
      var x := SomeMember(a);
      var y := SomeMember(b);
    }
  }

  /** The titles of a report's columns, in column order. */
  function ColumnTitles<V>(columns: seq<(string, V)>): (titles: seq<string>)
    ensures |titles| == |columns|
    ensures forall i :: 0 <= i < |columns| ==> titles[i] == columns[i].0
  {
    seq(|columns|, i requires 0 <= i < |columns| => columns[i].0)
  }

  /**
   * A report with one column per group key that has one: the keys, in order, for which
   * `column` gives a value, each with that value.
   */
  function Columns<V(!new)>(keys: seq<string>, column: string -> Option<V>): (columns: seq<(string, V)>)
    requires Ascending(keys)
    ensures Ascending(ColumnTitles(columns))
    ensures forall c :: c in columns <==> c.0 in keys && column(c.0) == Some(c.1)
  {
    if keys == [] then []
    else
      var rest := Columns(keys[1..], column);
      var restTitles := ColumnTitles(rest);
      forall i | 0 <= i < |rest| ensures TextBefore(keys[0], restTitles[i]) {
        assert rest[i] in rest;
        var j :| 0 <= j < |keys[1..]| && keys[1..][j] == rest[i].0;
        assert keys[j + 1] == rest[i].0;
      }
      match column(keys[0])
      case None => rest
      case Some(v) =>
        var columns := [(keys[0], v)] + rest;
        assert ColumnTitles(columns) == [keys[0]] + restTitles;
        columns
  }
}
