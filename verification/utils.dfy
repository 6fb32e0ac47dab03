/** The low-level helpers of the core package: counting, ranges, map reversal and
    the upper-case test, together with the parts of JavaScript's `Map` and
    `String.prototype.toUpperCase` they rely on. */
module Utils {
  import opened Wrappers

  // ---------------------------------------------------------------------------
  // JavaScript `Map`, as the ordered list of its entries
  // ---------------------------------------------------------------------------

  /** A JavaScript `Map`: its entries in insertion order. Maps built by `Set`
      and `FromEntries` never hold a key twice. */
  type JsMap<K, V> = seq<(K, V)>

  ghost predicate DistinctKeys<K, V>(m: JsMap<K, V>) {
    forall i, j :: 0 <= i < j < |m| ==> m[i].0 != m[j].0
  }

  ghost predicate DistinctValues<K, V>(m: JsMap<K, V>) {
    forall i, j :: 0 <= i < j < |m| ==> m[i].1 != m[j].1
  }

  /** `map.get(k)`: the value stored under `k`, if any. */
  function Get<K(==), V>(m: JsMap<K, V>, k: K): (r: Option<V>)
    ensures r.Some? <==> exists i :: 0 <= i < |m| && m[i].0 == k
    ensures r.Some? ==> exists i :: 0 <= i < |m| && m[i] == (k, r.value)
  {
    if |m| == 0 then None
    else if m[0].0 == k then Some(m[0].1)
    else
      var r := Get(m[1..], k);
      assert forall i :: 1 <= i < |m| ==> m[i] == m[1..][i - 1];
      r
  }

  /** `map.set(k, v)`: an existing key keeps its position and takes the new
      value; a new key is appended. */
  function Set<K(==), V>(m: JsMap<K, V>, k: K, v: V): (r: JsMap<K, V>)
  {
    if |m| == 0 then [(k, v)]
    else if m[0].0 == k then [(k, v)] + m[1..]
    else [m[0]] + Set(m[1..], k, v)
  }

  lemma {:induction false} GetSet<K, V>(m: JsMap<K, V>, k: K, v: V, k': K)
    ensures Get(Set(m, k, v), k') == if k' == k then Some(v) else Get(m, k')
  {
    if |m| > 0 && m[0].0 != k {
      GetSet(m[1..], k, v, k');
    }
  }

  lemma {:induction false} SetAbsent<K, V>(m: JsMap<K, V>, k: K, v: V)
    requires forall i :: 0 <= i < |m| ==> m[i].0 != k
    ensures Set(m, k, v) == m + [(k, v)]
  {
    if |m| > 0 {
      SetAbsent(m[1..], k, v);
    }
  }

  /** `new Map(entries)`: the entries are set one after the other. */
  function FromEntries<K(==), V>(entries: seq<(K, V)>): JsMap<K, V> {
    FromEntriesInto([], entries)
  }

  function FromEntriesInto<K(==), V>(acc: JsMap<K, V>, entries: seq<(K, V)>): JsMap<K, V>
    decreases |entries|
  {
    if |entries| == 0 then acc
    else FromEntriesInto(Set(acc, entries[0].0, entries[0].1), entries[1..])
  }

  /** The value of the last entry of `entries` whose key is `k`. */
  function LastValue<K(==), V>(entries: seq<(K, V)>, k: K): (r: Option<V>)
    ensures r.Some? <==> exists i :: 0 <= i < |entries| && entries[i].0 == k
  {
    if |entries| == 0 then None
    else
      var last := entries[|entries| - 1];
      var front := entries[..|entries| - 1];
      assert forall i :: 0 <= i < |front| ==> front[i] == entries[i];
      if last.0 == k then Some(last.1) else LastValue(front, k)
  }

  /** An entry with no later entry for the same key gives the value. */
  lemma {:induction false} LastValueIsLast<K, V>(entries: seq<(K, V)>, k: K, i: nat)
    requires i < |entries| && entries[i].0 == k
    requires forall j :: i < j < |entries| ==> entries[j].0 != k
    ensures LastValue(entries, k) == Some(entries[i].1)
    decreases |entries|
  {
    if i < |entries| - 1 {
      var front := entries[..|entries| - 1];
      assert front[i] == entries[i];
      LastValueIsLast(front, k, i);
    }
  }

  lemma {:induction false} LastValueCons<K, V>(e: (K, V), rest: seq<(K, V)>, k: K)
    ensures LastValue([e] + rest, k) ==
            if LastValue(rest, k).Some? then LastValue(rest, k)
            else if e.0 == k then Some(e.1) else None
  {
    var es := [e] + rest;
    if |rest| > 0 {
      assert es[..|es| - 1] == [e] + rest[..|rest| - 1];
      LastValueCons(e, rest[..|rest| - 1], k);
    } else {
      assert es[..|es| - 1] == [];
    }
  }

  /** Building a map from entries: for each key the last entry wins. */
  lemma {:induction false} GetFromEntriesInto<K, V>(acc: JsMap<K, V>, entries: seq<(K, V)>, k: K)
    ensures Get(FromEntriesInto(acc, entries), k) ==
            if LastValue(entries, k).Some? then LastValue(entries, k) else Get(acc, k)
    decreases |entries|
  {
    if |entries| > 0 {
      var e := entries[0];
      GetFromEntriesInto(Set(acc, e.0, e.1), entries[1..], k);
      GetSet(acc, e.0, e.1, k);
      assert entries == [e] + entries[1..];
      LastValueCons(e, entries[1..], k);
    }
  }

  /** With distinct keys, `new Map(entries)` keeps every entry, in order. */
  lemma {:induction false} FromEntriesIntoDistinct<K, V>(acc: JsMap<K, V>, entries: seq<(K, V)>)
    requires DistinctKeys(acc + entries)
    ensures FromEntriesInto(acc, entries) == acc + entries
    decreases |entries|
  {
    if |entries| > 0 {
      var e := entries[0];
      var all := acc + entries;
      forall i | 0 <= i < |acc| ensures acc[i].0 != e.0 {
        assert all[i] == acc[i] && all[|acc|] == e;
      }
      SetAbsent(acc, e.0, e.1);
      assert (acc + [e]) + entries[1..] == all;
      FromEntriesIntoDistinct(acc + [e], entries[1..]);
    }
  }

  function Swapped<K, V>(m: JsMap<K, V>): (r: seq<(V, K)>)
    ensures |r| == |m|
    ensures forall i :: 0 <= i < |m| ==> r[i] == (m[i].1, m[i].0)
  {
    seq(|m|, i requires 0 <= i < |m| => (m[i].1, m[i].0))
  }

  /** `reverseMap(map)`: a map from each value back to its key. */
  function ReverseMap<K(==), V(==)>(m: JsMap<K, V>): JsMap<V, K> {
    FromEntries(Swapped(m))
  }

  /** The key of the last entry of `m` holding `v`: a later entry wins when two
      keys share a value. */
  function LastKeyOf<K(==), V(==)>(m: JsMap<K, V>, v: V): Option<K> {
    LastValue(Swapped(m), v)
  }

  lemma ReverseMapGet<K, V>(m: JsMap<K, V>, v: V)
    ensures Get(ReverseMap(m), v) == LastKeyOf(m, v)
  {
    GetFromEntriesInto([], Swapped(m), v);
  }

  /** With distinct values every value maps back to its own key. */
  lemma ReverseMapGetDistinct<K, V>(m: JsMap<K, V>, i: nat)
    requires DistinctValues(m) && i < |m|
    ensures Get(ReverseMap(m), m[i].1) == Some(m[i].0)
  {
    ReverseMapGet(m, m[i].1);
    LastValueIsLast(Swapped(m), m[i].1, i);
  }

  lemma ReverseMapGetAbsent<K, V>(m: JsMap<K, V>, v: V)
    requires forall i :: 0 <= i < |m| ==> m[i].1 != v
    ensures Get(ReverseMap(m), v) == None
  {
    ReverseMapGet(m, v);
    assert forall i :: 0 <= i < |m| ==> Swapped(m)[i].0 != v;
  }

  /** Reversing twice gives back a map whose keys and values are distinct. */
  lemma ReverseMapInvolution<K, V>(m: JsMap<K, V>)
    requires DistinctKeys(m) && DistinctValues(m)
    ensures ReverseMap(ReverseMap(m)) == m
  {
    var s := Swapped(m);
    assert [] + s == s;
    FromEntriesIntoDistinct([], s);
    assert ReverseMap(m) == s;
    var t := Swapped(s);
    assert [] + t == t;
    FromEntriesIntoDistinct([], t);
    assert t == m;
  }

  // ---------------------------------------------------------------------------
  // countOccurrences, range, isUpperCase
  // ---------------------------------------------------------------------------

  /** The value stored for `x`, or 0: `acc.get(x) || 0`. */
  function CountIn<T(==)>(m: JsMap<T, nat>, x: T): nat {
    match Get(m, x)
    case Some(n) => n
    case None => 0
  }

  /** The reduce of `countOccurrences`: one `set` per element, adding one to the
      count held so far. */
  function Tally<T(==)>(acc: JsMap<T, nat>, arr: seq<T>): JsMap<T, nat>
    decreases |arr|
  {
    if |arr| == 0 then acc
    else Tally(Set<T, nat>(acc, arr[0], CountIn(acc, arr[0]) + 1), arr[1..])
  }

  function CountOccurrences<T(==)>(arr: seq<T>, item: T): nat {
    CountIn(Tally([], arr), item)
  }

  lemma {:induction false} TallyCounts<T>(acc: JsMap<T, nat>, arr: seq<T>, x: T)
    ensures CountIn(Tally(acc, arr), x) == CountIn(acc, x) + multiset(arr)[x]
    decreases |arr|
  {
    if |arr| > 0 {
      var acc' := Set<T, nat>(acc, arr[0], CountIn(acc, arr[0]) + 1);
      TallyCounts(acc', arr[1..], x);
      GetSet<T, nat>(acc, arr[0], CountIn(acc, arr[0]) + 1, x);
      assert arr == [arr[0]] + arr[1..];
      assert multiset(arr) == multiset{arr[0]} + multiset(arr[1..]);
    }
  }

  /** `countOccurrences(arr, x)` is the number of elements equal to `x`. */
  lemma CountOccurrencesIsMultiplicity<T>(arr: seq<T>, item: T)
    ensures CountOccurrences(arr, item) == multiset(arr)[item]
    ensures CountOccurrences(arr, item) == 0 <==> item !in arr
  {
    TallyCounts([], arr, item);
  }

  /** `range(n)`: the numbers 0 to n - 1 in order. */
  function Range(n: nat): (r: seq<nat>)
    ensures |r| == n
    ensures forall i :: 0 <= i < n ==> r[i] == i
  {
    if n == 0 then [] else Range(n - 1) + [n - 1]
  }

  predicate IsAsciiLower(c: char) {
    'a' <= c <= 'z'
  }

  /** `toUpperCase` on one character (ASCII letters only). */
  function ToUpperChar(c: char): (r: char)
    ensures IsAsciiLower(c) ==> r as int == c as int - 32
    ensures !IsAsciiLower(c) ==> r == c
  {
    if IsAsciiLower(c) then (c as int - 32) as char else c
  }

  function ToUpper(s: string): (r: string)
    ensures |r| == |s|
    ensures forall i :: 0 <= i < |s| ==> r[i] == ToUpperChar(s[i])
  {
    seq(|s|, i requires 0 <= i < |s| => ToUpperChar(s[i]))
  }

  /** `isUpperCase(s)`: upper-casing changes nothing, i.e. no lower-case letter
      occurs (so digits and punctuation count as upper case). */
  predicate IsUpperCase(s: string)
    ensures IsUpperCase(s) <==> forall i :: 0 <= i < |s| ==> !IsAsciiLower(s[i])
  {
    assert (forall i :: 0 <= i < |s| ==> !IsAsciiLower(s[i])) ==> ToUpper(s) == s;
    ToUpper(s) == s
  }

  /** Upper-casing gives an upper-case string and changes nothing the second
      time. */
  lemma ToUpperIsUpperCase(s: string)
    ensures IsUpperCase(ToUpper(s))
    ensures ToUpper(ToUpper(s)) == ToUpper(s)
    ensures IsUpperCase(s) <==> ToUpper(s) == s
  {
  }
}
