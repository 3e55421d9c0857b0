/**
 Building blocks shared by the panels: an option type, the JavaScript string
 built-ins the search code calls (`toLowerCase`, `startsWith`, `includes`),
 `Array.prototype.filter`, lodash's `keyBy`, and the order in which a
 JavaScript object enumerates integer-like keys.
 */
module Common {

  datatype Option<T> = None | Some(value: T)

  // ---------------------------------------------------------------------------
  // Strings
  // ---------------------------------------------------------------------------

  /** `toLowerCase` on one character, restricted to the ASCII letters. */
  function LowerChar(c: char): char
  {
    if 'A' <= c <= 'Z' then (c as int + 32) as char else c
  }

  /** `String.prototype.toLowerCase`, ASCII letters only. */
  function Lower(s: string): (r: string)
    ensures |r| == |s|
    ensures forall i :: 0 <= i < |s| ==> r[i] == LowerChar(s[i])
    ensures forall i :: 0 <= i < |r| ==> !('A' <= r[i] <= 'Z')
  {
    seq(|s|, i requires 0 <= i < |s| => LowerChar(s[i]))
  }

  /** `p` is a prefix of `s`. */
  ghost predicate IsPrefix<T>(p: seq<T>, s: seq<T>)
  {
    |p| <= |s| && s[..|p|] == p
  }

  /** `p` occurs in `s` starting at position `i`. */
  ghost predicate OccursAt(p: string, s: string, i: int)
  {
    0 <= i <= |s| - |p| && s[i..i + |p|] == p
  }

  /** `p` occurs in `s` as a contiguous block. */
  ghost predicate IsSubstring(p: string, s: string)
  {
    exists i :: OccursAt(p, s, i)
  }

  /** `s.startsWith(p)`. */
  function StartsWith(s: string, p: string): (r: bool)
    ensures r <==> IsPrefix(p, s)
  {
    if p == [] then true
    else if s == [] then false
    else s[0] == p[0] && StartsWith(s[1..], p[1..])
  }

  /** `s.includes(p)`: try every start position from the left. */
  function Includes(s: string, p: string): (r: bool)
    ensures r <==> IsSubstring(p, s)
    decreases |s|
  {
    if StartsWith(s, p) then
      assert OccursAt(p, s, 0);
      true
    else if s == [] then false
    else
      var r := Includes(s[1..], p);
      ShiftOccurrence(p, s);
      r
  }

  /** An occurrence past position 0 is an occurrence in the tail. */
  lemma ShiftOccurrence(p: string, s: string)
    requires s != [] && !IsPrefix(p, s)
    ensures IsSubstring(p, s) <==> IsSubstring(p, s[1..])
  {
    if IsSubstring(p, s) {
      var i :| OccursAt(p, s, i);
      assert i != 0;
      assert s[1..][i - 1..i - 1 + |p|] == s[i..i + |p|];
      assert OccursAt(p, s[1..], i - 1);
    }
    if IsSubstring(p, s[1..]) {
      var i :| OccursAt(p, s[1..], i);
      assert s[1..][i..i + |p|] == s[i + 1..i + 1 + |p|];
      assert OccursAt(p, s, i + 1);
    }
  }

  // ---------------------------------------------------------------------------
  // Sequences
  // ---------------------------------------------------------------------------

  /** `Array.prototype.filter`: the elements satisfying `p`, in their order. */
  function Filter<T(!new)>(s: seq<T>, p: T -> bool): (r: seq<T>)
    ensures |r| <= |s|
    ensures forall x :: x in r <==> x in s && p(x)
  {
    if s == [] then []
    else (if p(s[0]) then [s[0]] else []) + Filter(s[1..], p)
  }

  /** Filtering distributes over concatenation, so it keeps the order of `s`. */
  lemma {:induction false} FilterAppend<T(!new)>(a: seq<T>, b: seq<T>, p: T -> bool)
    ensures Filter(a + b, p) == Filter(a, p) + Filter(b, p)
  {
    if a == [] {
      assert a + b == b;
    } else {
      assert (a + b)[1..] == a[1..] + b;
      FilterAppend(a[1..], b, p);
    }
  }

  /** A filter that keeps everything is the identity. */
  lemma {:induction false} FilterAll<T(!new)>(s: seq<T>, p: T -> bool)
    requires forall x :: x in s ==> p(x)
    ensures Filter(s, p) == s
  {
    if s != [] {
      FilterAll(s[1..], p);
    }
  }

  /** The first element of a filter is the first element of `s` that passes. */
  lemma {:induction false} FilterFirst<T(!new)>(s: seq<T>, p: T -> bool)
    requires Filter(s, p) != []
    ensures exists i :: 0 <= i < |s| && s[i] == Filter(s, p)[0] && p(s[i])
                        && forall j :: 0 <= j < i ==> !p(s[j])
  {
    if p(s[0]) {
      assert s[0] == Filter(s, p)[0];
    } else {
      var tail := s[1..];
      assert Filter(s, p) == Filter(tail, p);
      FilterFirst(tail, p);
      var i :| 0 <= i < |tail| && tail[i] == Filter(tail, p)[0] && p(tail[i])
               && forall j :: 0 <= j < i ==> !p(tail[j]);
      assert s[i + 1] == tail[i];
      forall j | 0 <= j < i + 1 ensures !p(s[j]) {
        if j > 0 { assert s[j] == tail[j - 1]; }
      }
    }
  }

  // ---------------------------------------------------------------------------
  // Dictionaries
  // ---------------------------------------------------------------------------

  /**
   lodash `keyBy`, and equally a loop `obj[key(x)] = x` over `s`: one entry
   per distinct key of `s`; see KeyByValue and KeyByLast for its values.
   */
  function KeyBy<K(!new), V(!new)>(s: seq<V>, key: V -> K): (m: map<K, V>)
    ensures forall k :: k in m <==> exists i :: 0 <= i < |s| && key(s[i]) == k
  {
    if s == [] then map[]
    else
      var m0 := KeyBy(s[..|s| - 1], key);
      assert forall i :: 0 <= i < |s| - 1 ==> s[..|s| - 1][i] == s[i];
      m0[key(s[|s| - 1]) := s[|s| - 1]]
  }

  /** Every entry is an element of `s` filed under its own key. */
  lemma {:induction false} KeyByValue<K(!new), V(!new)>(s: seq<V>, key: V -> K, k: K)
    requires k in KeyBy(s, key)
    ensures key(KeyBy(s, key)[k]) == k && KeyBy(s, key)[k] in s
  {
    var last := s[|s| - 1];
    if key(last) != k {
      KeyByValue(s[..|s| - 1], key, k);
      assert KeyBy(s, key)[k] in s[..|s| - 1];
    }
  }

  /** A later element overwrites an earlier one: the last element with a key wins. */
  lemma {:induction false} KeyByLast<K(!new), V(!new)>(s: seq<V>, key: V -> K, i: nat)
    requires i < |s|
    requires forall j :: i < j < |s| ==> key(s[j]) != key(s[i])
    ensures key(s[i]) in KeyBy(s, key) && KeyBy(s, key)[key(s[i])] == s[i]
  {
    if i < |s| - 1 {
      var init := s[..|s| - 1];
      assert forall j :: i < j < |init| ==> init[j] == s[j];
      KeyByLast(init, key, i);
    }
  }

  /** Every entry is the last element of `s` with its key. */
  lemma {:induction false} KeyByLastIndex<K(!new), V(!new)>(s: seq<V>, key: V -> K, k: K)
    requires k in KeyBy(s, key)
    ensures exists i :: 0 <= i < |s| && key(s[i]) == k && KeyBy(s, key)[k] == s[i]
                        && forall j :: i < j < |s| ==> key(s[j]) != k
  {
    var last := |s| - 1;
    if key(s[last]) != k {
      var init := s[..last];
      KeyByLastIndex(init, key, k);
      var i :| 0 <= i < |init| && key(init[i]) == k && KeyBy(init, key)[k] == init[i]
               && forall j :: i < j < |init| ==> key(init[j]) != k;
      assert forall j :: i < j < |s| ==> key(s[j]) != k by {
        forall j | i < j < |s| ensures key(s[j]) != k {
          if j < last { assert init[j] == s[j]; }
        }
      }
      assert s[i] == init[i];
    }
  }

  /** The bucket filed under `k` in an index, empty when `k` has none. */
  function Bucket<K, V>(index: map<K, set<V>>, k: K): (r: set<V>)
    ensures k in index ==> r == index[k]
    ensures k !in index ==> r == {}
  {
    if k in index then index[k] else {}
  }

  /** Strictly increasing: the order a JavaScript object lists integer keys in. */
  predicate Ascending(s: seq<nat>)
  {
    forall i, j :: 0 <= i < j < |s| ==> s[i] < s[j]
  }

  /**
   Adding integer key `k` to an object whose keys are `s`: the engine keeps
   integer-like keys in ascending order, and a present key keeps its place.
   */
  function InsertAscending(s: seq<nat>, k: nat): (r: seq<nat>)
    requires Ascending(s)
    ensures Ascending(r)
    ensures forall x :: x in r <==> x in s || x == k
    ensures k in s ==> r == s
  {
    if s == [] then [k]
    else if k < s[0] then [k] + s
    else if k == s[0] then s
    else [s[0]] + InsertAscending(s[1..], k)
  }
}
