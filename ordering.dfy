/**
 * The orderings main.c asks SQLite for: `order by name` (conversation list,
 * selected conversation) and `order by ts desc` (message pane). Both columns
 * are text under SQLite's default BINARY collation.
 *
 * SQLite leaves the order of equal keys unspecified; the model resolves ties
 * by a stable insertion sort, and only sortedness and being a permutation are
 * promised.
 */
module Ordering {

  /**
   * BINARY collation: byte-wise comparison of the UTF-8 encodings, a proper
   * prefix first. UTF-8 preserves codepoint order, so comparing the
   * characters of the decoded strings gives the same answer.
   */
  predicate TextLe(a: string, b: string)
    decreases |a|
  {
    if a == [] then true
    else if b == [] then false
    else if a[0] != b[0] then a[0] < b[0]
    else TextLe(a[1..], b[1..])
  }

  /** Any two texts are comparable. */
  lemma {:induction false} TextLeTotal(a: string, b: string)
    ensures TextLe(a, b) || TextLe(b, a)
    decreases |a|
  {
    if a != [] && b != [] && a[0] == b[0] {
      TextLeTotal(a[1..], b[1..]);
    }
  }

  /** Neighbours are in ascending key order. */
  ghost predicate SortedBy<T>(s: seq<T>, key: T -> string) {
    forall i :: 0 < i < |s| ==> TextLe(key(s[i - 1]), key(s[i]))
  }

  /** Neighbours are in descending key order. */
  ghost predicate SortedDescBy<T>(s: seq<T>, key: T -> string) {
    forall i :: 0 < i < |s| ==> TextLe(key(s[i]), key(s[i - 1]))
  }

  /** Puts `x` into the sorted `s` before the first element whose key is not smaller. */
  function InsertBy<T>(x: T, s: seq<T>, key: T -> string): (r: seq<T>)
    requires SortedBy(s, key)
    ensures SortedBy(r, key)
    ensures multiset(r) == multiset(s) + multiset{x}
    ensures |r| == |s| + 1
    ensures r[0] == x || (s != [] && r[0] == s[0])
  {
    if s == [] || TextLe(key(x), key(s[0])) then
      [x] + s
    else
      TextLeTotal(key(x), key(s[0]));
      assert s == [s[0]] + s[1..];
      [s[0]] + InsertBy(x, s[1..], key)
  }

  /** Ascending order by `key`: a sorted permutation of `s`. */
  function SortBy<T>(s: seq<T>, key: T -> string): (r: seq<T>)
    ensures SortedBy(r, key)
    ensures multiset(r) == multiset(s)
    ensures |r| == |s|
  {
    if s == [] then []
    else
      assert s == [s[0]] + s[1..];
      InsertBy(s[0], SortBy(s[1..], key), key)
  }

  /** Descending order by `key` (`order by ... desc`): a permutation of `s` sorted the other way round. */
  function SortDescBy<T>(s: seq<T>, key: T -> string): (r: seq<T>)
    ensures SortedDescBy(r, key)
    ensures multiset(r) == multiset(s)
    ensures |r| == |s|
  {
    var up := SortBy(s, key);
    var r := seq(|up|, i requires 0 <= i < |up| => up[|up| - 1 - i]);
    assert multiset(r) == multiset(up) by {
      ReversedMultiset(up, r);
    }
    r
  }

  /** `f` applied to every element. */
  function Map<T, U>(s: seq<T>, f: T -> U): (r: seq<U>)
    ensures |r| == |s|
    ensures forall i :: 0 <= i < |s| ==> r[i] == f(s[i])
  {
    seq(|s|, i requires 0 <= i < |s| => f(s[i]))
  }

  lemma MapAppend<T, U>(a: seq<T>, b: seq<T>, f: T -> U)
    ensures Map(a + b, f) == Map(a, f) + Map(b, f)
  {
  }

  /** Changing elements without changing their keys keeps a sequence sorted. */
  lemma MapKeepsSorted<T>(s: seq<T>, key: T -> string, f: T -> T)
    requires SortedBy(s, key)
    requires forall y :: key(f(y)) == key(y)
    ensures SortedBy(Map(s, f), key)
  {
    var m := Map(s, f);
    forall i | 0 < i < |m| ensures TextLe(key(m[i - 1]), key(m[i])) {
      assert key(m[i - 1]) == key(s[i - 1]) && key(m[i]) == key(s[i]);
    }
  }

  /** Inserting commutes with a key-preserving change of the elements. */
  lemma {:induction false} InsertByMap<T>(x: T, s: seq<T>, key: T -> string, f: T -> T)
    requires SortedBy(s, key)
    requires forall y :: key(f(y)) == key(y)
    ensures SortedBy(Map(s, f), key)
    ensures Map(InsertBy(x, s, key), f) == InsertBy(f(x), Map(s, f), key)
    decreases |s|
  {
    MapKeepsSorted(s, key, f);
    if s == [] || TextLe(key(x), key(s[0])) {
      assert Map([x] + s, f) == [f(x)] + Map(s, f);
    } else {
      var m := Map(s, f);
      assert m[0] == f(s[0]) && m[1..] == Map(s[1..], f);
      InsertByMap(x, s[1..], key, f);
      assert Map([s[0]] + InsertBy(x, s[1..], key), f) == [f(s[0])] + Map(InsertBy(x, s[1..], key), f);
    }
  }

  /**
   * Sorting commutes with a change of the elements that keeps their keys:
   * updating a column the `order by` does not read leaves the order alone.
   */
  lemma {:induction false} SortByMap<T>(s: seq<T>, key: T -> string, f: T -> T)
    requires forall y :: key(f(y)) == key(y)
    ensures Map(SortBy(s, key), f) == SortBy(Map(s, f), key)
    decreases |s|
  {
    if s != [] {
      var m := Map(s, f);
      assert m[0] == f(s[0]) && m[1..] == Map(s[1..], f);
      SortByMap(s[1..], key, f);
      InsertByMap(s[0], SortBy(s[1..], key), key, f);
    }
  }

  lemma {:induction false} ReversedMultiset<T>(s: seq<T>, r: seq<T>)
    requires |r| == |s|
    requires forall i :: 0 <= i < |s| ==> r[i] == s[|s| - 1 - i]
    ensures multiset(r) == multiset(s)
  {
    if s != [] {
      var s' := s[1..];
      var r' := r[..|r| - 1];
      ReversedMultiset(s', r');
      assert s == [s[0]] + s';
      assert r == r' + [s[0]];
    }
  }
}
