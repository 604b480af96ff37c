/**
 * The order PostgreSQL's `ORDER BY <column> ASC|DESC` puts rows in, for the
 * column kinds the application sorts on: text, integers and nullable
 * timestamps. Text is compared code point by code point (the database's
 * collation is abstracted to this total order); a NULL timestamp sorts after
 * every value, as PostgreSQL does by default. Rows with equal keys may come
 * in any order in the database, and in a different order from one query to
 * the next; `SortBy` fixes one such order.
 */
module Ordering {
  import opened Wrappers

  /** The value of the column a row is sorted by. */
  datatype Key = Text(s: string) | Number(n: int) | Stamp(t: Option<int>)

  /** Lexicographic order on strings, by code point. */
  predicate LexLe(a: string, b: string) {
    a == [] || (b != [] && (a[0] < b[0] || (a[0] == b[0] && LexLe(a[1..], b[1..]))))
  }

  /** Timestamps in ascending order, NULL last. */
  predicate StampLe(a: Option<int>, b: Option<int>) {
    b.None? || (a.Some? && a.value <= b.value)
  }

  function Rank(k: Key): nat {
    match k
    case Text(_) => 0
    case Number(_) => 1
    case Stamp(_) => 2
  }

  /** Ascending order on keys. Keys of one column always have the same kind. */
  predicate KeyLe(a: Key, b: Key) {
    if Rank(a) != Rank(b) then Rank(a) < Rank(b)
    else match a
      case Text(x) => LexLe(x, b.s)
      case Number(x) => x <= b.n
      case Stamp(x) => StampLe(x, b.t)
  }

  /** `a` may come before `b` under `ORDER BY ... ASC` (or `DESC` when `descending`). */
  predicate Precedes(a: Key, b: Key, descending: bool) {
    if descending then KeyLe(b, a) else KeyLe(a, b)
  }

  lemma {:induction false} LexTotal(a: string, b: string)
    ensures LexLe(a, b) || LexLe(b, a)
  {
    if a != [] && b != [] && a[0] == b[0] {
      LexTotal(a[1..], b[1..]);
    }
  }

  lemma {:induction false} LexTransitive(a: string, b: string, c: string)
    requires LexLe(a, b) && LexLe(b, c)
    ensures LexLe(a, c)
  {
    if a != [] && b != [] && c != [] && a[0] == b[0] == c[0] {
      LexTransitive(a[1..], b[1..], c[1..]);
    }
  }

  /** Any two keys are comparable, in either direction of sorting. */
  lemma PrecedesTotal(a: Key, b: Key, descending: bool)
    ensures Precedes(a, b, descending) || Precedes(b, a, descending)
  {
    if a.Text? && b.Text? {
      LexTotal(a.s, b.s);
    }
  }

  /** The sorting order is transitive, in either direction of sorting. */
  lemma PrecedesTransitive(a: Key, b: Key, c: Key, descending: bool)
    requires Precedes(a, b, descending) && Precedes(b, c, descending)
    ensures Precedes(a, c, descending)
  {
    if a.Text? && b.Text? && c.Text? {
      if descending {
        LexTransitive(c.s, b.s, a.s);
      } else {
        LexTransitive(a.s, b.s, c.s);
      }
    }
  }

  /** Every element precedes every later one. */
  predicate SortedBy<T>(s: seq<T>, key: T -> Key, descending: bool) {
    forall i, j :: 0 <= i < j < |s| ==> Precedes(key(s[i]), key(s[j]), descending)
  }

  /** `x` precedes every element of `s`. */
  predicate PrecedesAll<T>(x: T, s: seq<T>, key: T -> Key, descending: bool) {
    forall j :: 0 <= j < |s| ==> Precedes(key(x), key(s[j]), descending)
  }

  lemma ConsSorted<T>(x: T, s: seq<T>, key: T -> Key, descending: bool)
    requires SortedBy(s, key, descending) && PrecedesAll(x, s, key, descending)
    ensures SortedBy([x] + s, key, descending)
  {
    var r := [x] + s;
    assert forall j :: 0 < j < |r| ==> r[j] == s[j - 1];
  }

  lemma PrecedesAllPermutation<T>(y: T, a: seq<T>, b: seq<T>, key: T -> Key, descending: bool)
    requires multiset(a) == multiset(b) && PrecedesAll(y, b, key, descending)
    ensures PrecedesAll(y, a, key, descending)
  {
    forall j | 0 <= j < |a| ensures Precedes(key(y), key(a[j]), descending) {
      assert a[j] in multiset(b);
      var k :| 0 <= k < |b| && b[k] == a[j];
    }
  }

  /** Puts `x` into `s` in front of the first element it precedes. */
  function Insert<T>(x: T, s: seq<T>, key: T -> Key, descending: bool): (r: seq<T>)
    ensures |r| == |s| + 1
  {
    if s == [] || Precedes(key(x), key(s[0]), descending) then [x] + s
    else [s[0]] + Insert(x, s[1..], key, descending)
  }

  /** `ORDER BY key`, as an insertion sort. */
  function SortBy<T>(s: seq<T>, key: T -> Key, descending: bool): (r: seq<T>)
    ensures |r| == |s|
  {
    if s == [] then [] else Insert(s[0], SortBy(s[1..], key, descending), key, descending)
  }

  /** Inserting adds `x` and keeps everything else. */
  lemma {:induction false} InsertPermutes<T>(x: T, s: seq<T>, key: T -> Key, descending: bool)
    ensures multiset(Insert(x, s, key, descending)) == multiset(s) + multiset{x}
  {
    if s != [] && !Precedes(key(x), key(s[0]), descending) {
      InsertPermutes(x, s[1..], key, descending);
      assert s == [s[0]] + s[1..];
    }
  }

  /** Inserting into a sorted sequence keeps it sorted. */
  lemma {:induction false} InsertSorted<T>(x: T, s: seq<T>, key: T -> Key, descending: bool)
    requires SortedBy(s, key, descending)
    ensures SortedBy(Insert(x, s, key, descending), key, descending)
  {
    if s == [] || Precedes(key(x), key(s[0]), descending) {
      forall j | 0 <= j < |s| ensures Precedes(key(x), key(s[j]), descending) {
        if j > 0 {
          PrecedesTransitive(key(x), key(s[0]), key(s[j]), descending);
        }
      }
      ConsSorted(x, s, key, descending);
    } else {
      var tail := s[1..];
      var rest := Insert(x, tail, key, descending);
      InsertSorted(x, tail, key, descending);
      InsertPermutes(x, tail, key, descending);
      PrecedesTotal(key(x), key(s[0]), descending);
      assert PrecedesAll(s[0], tail + [x], key, descending);
      assert multiset(rest) == multiset(tail + [x]);
      PrecedesAllPermutation(s[0], rest, tail + [x], key, descending);
      ConsSorted(s[0], rest, key, descending);
    }
  }

  /** The result of `SortBy` is sorted by the key and is a permutation of its input. */
  lemma {:induction false} SortByIsSortedPermutation<T>(s: seq<T>, key: T -> Key, descending: bool)
    ensures SortedBy(SortBy(s, key, descending), key, descending)
    ensures multiset(SortBy(s, key, descending)) == multiset(s)
  {
    if s != [] {
      var rest := SortBy(s[1..], key, descending);
      SortByIsSortedPermutation(s[1..], key, descending);
      InsertSorted(s[0], rest, key, descending);
      InsertPermutes(s[0], rest, key, descending);
      assert s == [s[0]] + s[1..];
    }
  }
}
