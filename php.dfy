/**
 * The few PHP built-ins and language rules the configuration and the
 * controller rely on: string truthiness, `trim`, `explode`, `array_filter`,
 * `array_merge`, and how an array literal that repeats a key is built.
 */
module Php {
  import opened Wrappers

  /** `(bool) $s` for a string: only "" and "0" are false. */
  predicate Truthy(s: string)
  {
    s != "" && s != "0"
  }

  /** The characters `trim` strips by default: space, tab, LF, CR, NUL and vertical tab. */
  const TrimChars: set<char> := {' ', '\t', '\n', '\r', '\0', 11 as char}

  predicate Blank(s: string)
  {
    forall i :: 0 <= i < |s| ==> s[i] in TrimChars
  }

  function TrimLeft(s: string): (r: string)
    ensures |r| > 0 ==> r[0] !in TrimChars
    ensures r == "" <==> Blank(s)
  {
    if |s| > 0 && s[0] in TrimChars then TrimLeft(s[1..]) else s
  }

  function TrimRight(s: string): (r: string)
    ensures |s| > 0 && s[0] !in TrimChars ==> |r| > 0
  {
    if |s| > 0 && s[|s| - 1] in TrimChars then TrimRight(s[..|s| - 1]) else s
  }

  /** `trim($s)`. */
  function Trim(s: string): (r: string)
    ensures r == "" <==> Blank(s)
  {
    TrimRight(TrimLeft(s))
  }

  /** `explode($sep, $s)` for a one-character separator: the pieces between separators. */
  function Explode(sep: char, s: string): (pieces: seq<string>)
    ensures |pieces| >= 1
    ensures forall i, j :: 0 <= i < |pieces| && 0 <= j < |pieces[i]| ==> pieces[i][j] != sep
  {
    if s == "" then [""]
    else
      var rest := Explode(sep, s[1..]);
      if s[0] == sep then [""] + rest
      else [[s[0]] + rest[0]] + rest[1..]
  }

  /** `implode($sep, $pieces)`: the reference that `Explode` inverts. */
  function Implode(sep: char, pieces: seq<string>): string
    requires |pieces| >= 1
  {
    if |pieces| == 1 then pieces[0]
    else pieces[0] + [sep] + Implode(sep, pieces[1..])
  }

  /** A string without the separator explodes to itself alone. */
  lemma {:induction false} ExplodeWithoutSeparator(sep: char, s: string)
    requires sep !in s
    ensures Explode(sep, s) == [s]
  {
    if s != "" {
      ExplodeWithoutSeparator(sep, s[1..]);
      assert [s[0]] + s[1..] == s;
    }
  }

  /** Joining the pieces with the separator gives back the exploded string. */
  lemma {:induction false} ImplodeExplode(sep: char, s: string)
    ensures Implode(sep, Explode(sep, s)) == s
  {
    if s != "" {
      var rest := Explode(sep, s[1..]);
      ImplodeExplode(sep, s[1..]);
      if s[0] == sep {
        assert ([""] + rest)[1..] == rest;
      } else {
        var pieces := [[s[0]] + rest[0]] + rest[1..];
        if |rest| > 1 {
          assert pieces[1..] == rest[1..];
        }
      }
      assert s == [s[0]] + s[1..];
    }
  }

  /** An element of a PHP list-like array: an integer key and a string value. */
  datatype Entry = Entry(key: nat, value: string)

  /** The array PHP builds from a list: keys 0, 1, 2, ... */
  function Indexed(xs: seq<string>): (arr: seq<Entry>)
    ensures |arr| == |xs|
    ensures forall i :: 0 <= i < |arr| ==> arr[i] == Entry(i, xs[i])
  {
    seq(|xs|, i requires 0 <= i < |xs| => Entry(i, xs[i]))
  }

  /** `array_values`: the values in array order. */
  function Values(arr: seq<Entry>): (vs: seq<string>)
    ensures |vs| == |arr|
    ensures forall i :: 0 <= i < |arr| ==> vs[i] == arr[i].value
  {
    seq(|arr|, i requires 0 <= i < |arr| => arr[i].value)
  }

  predicate IncreasingKeys(arr: seq<Entry>)
  {
    forall i, j :: 0 <= i < j < |arr| ==> arr[i].key < arr[j].key
  }

  /**
   * `array_filter($arr)` without a callback: keeps the entries whose value is
   * truthy, in order, with their original keys (no renumbering).
   */
  function ArrayFilter(arr: seq<Entry>): (r: seq<Entry>)
    ensures forall e :: e in r <==> e in arr && Truthy(e.value)
    ensures IncreasingKeys(arr) ==> IncreasingKeys(r)
  {
    if arr == [] then []
    else
      var rest := ArrayFilter(arr[1..]);
      assert forall e :: e in arr <==> e == arr[0] || e in arr[1..];
      if Truthy(arr[0].value) then
        KeepFirstIncreasing(arr, rest);
        [arr[0]] + rest
      else rest
  }

  /** Putting the first entry back in front of a sub-list of the others keeps keys increasing. */
  lemma KeepFirstIncreasing(arr: seq<Entry>, rest: seq<Entry>)
    requires |arr| > 0
    requires forall e :: e in rest ==> e in arr[1..]
    requires IncreasingKeys(arr[1..]) ==> IncreasingKeys(rest)
    ensures IncreasingKeys(arr) ==> IncreasingKeys([arr[0]] + rest)
  {
    if IncreasingKeys(arr) {
      assert IncreasingKeys(arr[1..]);
      var r := [arr[0]] + rest;
      forall i, j | 0 <= i < j < |r|
        ensures r[i].key < r[j].key
      {
        if i == 0 {
          assert r[j] in arr[1..];
          var k :| 0 <= k < |arr[1..]| && arr[1..][k] == r[j];
          assert arr[k + 1] == r[j];
        } else {
          assert r[i] == rest[i - 1] && r[j] == rest[j - 1];
        }
      }
    }
  }

  /** `array_merge` of two arrays with integer keys: values in order, keys renumbered from 0. */
  function ArrayMerge(a: seq<Entry>, b: seq<Entry>): (r: seq<Entry>)
    ensures Values(r) == Values(a) + Values(b)
    ensures forall i :: 0 <= i < |r| ==> r[i].key == i
  {
    Indexed(Values(a) + Values(b))
  }

  /**
   * Adds `k => v` to an array with string keys: a key already present keeps
   * its position and takes the new value; a new key goes at the end.
   */
  function Put<V>(arr: seq<(string, V)>, k: string, v: V): (r: seq<(string, V)>)
  {
    if arr == [] then [(k, v)]
    else if arr[0].0 == k then [(k, v)] + arr[1..]
    else [arr[0]] + Put(arr[1..], k, v)
  }

  /** `$arr[$k] ?? null`: the value stored under `k`. */
  function Lookup<V>(arr: seq<(string, V)>, k: string): Option<V>
  {
    if arr == [] then None
    else if arr[0].0 == k then Some(arr[0].1)
    else Lookup(arr[1..], k)
  }

  predicate DistinctKeys<V>(arr: seq<(string, V)>)
  {
    forall i, j :: 0 <= i < j < |arr| ==> arr[i].0 != arr[j].0
  }

  /** An array literal `[k1 => v1, k2 => v2, ...]` whose keys may repeat. */
  function ArrayLiteral<V>(pairs: seq<(string, V)>): (arr: seq<(string, V)>)
  {
    if pairs == [] then []
    else
      var last := pairs[|pairs| - 1];
      Put(ArrayLiteral(pairs[..|pairs| - 1]), last.0, last.1)
  }

  /** The reference meaning of a repeated key: the value written LAST for it in the literal. */
  function LastValue<V>(pairs: seq<(string, V)>, k: string): Option<V>
  {
    if pairs == [] then None
    else if pairs[|pairs| - 1].0 == k then Some(pairs[|pairs| - 1].1)
    else LastValue(pairs[..|pairs| - 1], k)
  }

  lemma {:induction false} LookupPut<V>(arr: seq<(string, V)>, k: string, v: V, k': string)
    ensures Lookup(Put(arr, k, v), k') == if k' == k then Some(v) else Lookup(arr, k')
  {
    if arr != [] && arr[0].0 != k {
      LookupPut(arr[1..], k, v, k');
    }
  }

  lemma {:induction false} PutKeepsKeysDistinct<V>(arr: seq<(string, V)>, k: string, v: V)
    requires DistinctKeys(arr)
    ensures DistinctKeys(Put(arr, k, v))
    ensures forall i :: 0 <= i < |Put(arr, k, v)| ==> Put(arr, k, v)[i].0 == k || exists j :: 0 <= j < |arr| && arr[j].0 == Put(arr, k, v)[i].0
  {
    if arr != [] && arr[0].0 != k {
      PutKeepsKeysDistinct(arr[1..], k, v);
      var r := Put(arr, k, v);
      assert r == [arr[0]] + Put(arr[1..], k, v);
      forall i | 0 < i < |r|
        ensures r[i].0 != arr[0].0
      {
        assert r[i] == Put(arr[1..], k, v)[i - 1];
      }
    }
  }

  /**
   * PHP's rule for a literal that repeats a key: the key's entry holds the
   * last value written for it, and each key occurs once.
   */
  lemma {:induction false} ArrayLiteralLookup<V>(pairs: seq<(string, V)>, k: string)
    ensures Lookup(ArrayLiteral(pairs), k) == LastValue(pairs, k)
    ensures DistinctKeys(ArrayLiteral(pairs))
  {
    if pairs != [] {
      var init, last := pairs[..|pairs| - 1], pairs[|pairs| - 1];
      ArrayLiteralLookup(init, k);
      LookupPut(ArrayLiteral(init), last.0, last.1, k);
      PutKeepsKeysDistinct(ArrayLiteral(init), last.0, last.1);
    }
  }

  /** The last pair written for `k` decides `LastValue`. */
  lemma {:induction false} LastValueAt<V>(pairs: seq<(string, V)>, i: nat)
    requires i < |pairs|
    requires forall j :: i < j < |pairs| ==> pairs[j].0 != pairs[i].0
    ensures LastValue(pairs, pairs[i].0) == Some(pairs[i].1)
  {
    if i < |pairs| - 1 {
      LastValueAt(pairs[..|pairs| - 1], i);
    }
  }
}
