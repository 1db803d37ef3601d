/**
 * The JavaScript string operations index.js relies on: `startsWith`,
 * `endsWith`, `includes`, `indexOf`, `replace` with a string pattern and an
 * empty replacement, and `Array.prototype.join`.
 */
module Strings {

  /** `s.startsWith(prefix)`. */
  predicate StartsWith(s: string, prefix: string) {
    |prefix| <= |s| && s[..|prefix|] == prefix
  }

  /** `s.endsWith(suffix)`. */
  predicate EndsWith(s: string, suffix: string) {
    |suffix| <= |s| && s[|s| - |suffix|..] == suffix
  }

  /** `t` occurs in `s` starting at position `i`. */
  predicate OccursAt(s: string, t: string, i: nat) {
    i + |t| <= |s| && s[i..i + |t|] == t
  }

  /** `s.includes(t)`. */
  predicate Contains(s: string, t: string) {
    exists i: nat | i <= |s| :: OccursAt(s, t, i)
  }

  /** The first occurrence of `t` in `s` at or after `from`, or -1. */
  function IndexFrom(s: string, t: string, from: nat): (r: int)
    ensures r == -1 || (from <= r && OccursAt(s, t, r))
    ensures forall j: nat :: from <= j && (r == -1 || j < r) ==> !OccursAt(s, t, j)
    decreases |s| - from
  {
    if |s| < from + |t| then -1
    else if OccursAt(s, t, from) then from
    else IndexFrom(s, t, from + 1)
  }

  /** `s.indexOf(t)`: where `t` first occurs in `s`, or -1 when it does not. */
  function IndexOf(s: string, t: string): (r: int)
    ensures r == -1 <==> !Contains(s, t)
    ensures r != -1 ==> 0 <= r && OccursAt(s, t, r)
    ensures forall j: nat :: r != -1 && j < r ==> !OccursAt(s, t, j)
  {
    IndexFrom(s, t, 0)
  }

  /**
   * `s.replace(pattern, "")` with a string pattern: only the first
   * occurrence of `pattern` is removed, wherever it stands.
   */
  function RemoveFirst(s: string, pattern: string): (r: string)
    ensures !Contains(s, pattern) ==> r == s
    ensures Contains(s, pattern) ==> |r| == |s| - |pattern|
    ensures StartsWith(s, pattern) ==> r == s[|pattern|..]
    ensures Contains(s, pattern) ==>
      exists i: nat :: OccursAt(s, pattern, i) && (forall j: nat :: j < i ==> !OccursAt(s, pattern, j))
        && r == s[..i] + s[i + |pattern|..]
  {
    var i := IndexOf(s, pattern);
    assert StartsWith(s, pattern) ==> OccursAt(s, pattern, 0);
    if i == -1 then s else s[..i] + s[i + |pattern|..]
  }

  /** `xs.join(sep)`: the elements with `sep` between neighbours. */
  function Join(xs: seq<string>, sep: string): (r: string)
    ensures forall i :: 0 <= i < |xs| ==> Contains(r, xs[i])
    ensures sep != "" ==> (r == "" <==> xs == [] || xs == [""])
    ensures xs != [] ==> StartsWith(r, xs[0])
    ensures |xs| == 1 ==> r == xs[0]
  {
    if xs == [] then ""
    else if |xs| == 1 then
      assert OccursAt(xs[0], xs[0], 0);
      xs[0]
    else
      var rest := Join(xs[1..], sep);
      assert OccursAt(xs[0], xs[0], 0);
      ContainsInPrefix(xs[0], sep + rest, xs[0]);
      assert forall i | 1 <= i < |xs| :: Contains(xs[0] + sep + rest, xs[i]) by {
        forall i | 1 <= i < |xs| ensures Contains(xs[0] + sep + rest, xs[i]) {
          assert xs[1..][i - 1] == xs[i];
          ContainsInSuffix(xs[0] + sep, rest, xs[i]);
        }
      }
      assert xs[0] + sep + rest == xs[0] + (sep + rest);
      assert (xs[0] + (sep + rest))[..|xs[0]|] == xs[0];
      xs[0] + sep + rest
  }

  lemma ContainsInPrefix(a: string, b: string, t: string)
    requires Contains(a, t)
    ensures Contains(a + b, t)
  {
    var i: nat :| i <= |a| && OccursAt(a, t, i);
    assert (a + b)[i..i + |t|] == a[i..i + |t|];
    assert OccursAt(a + b, t, i);
  }

  lemma ContainsInSuffix(a: string, b: string, t: string)
    requires Contains(b, t)
    ensures Contains(a + b, t)
  {
    var i: nat :| i <= |b| && OccursAt(b, t, i);
    assert (a + b)[|a| + i..|a| + i + |t|] == b[i..i + |t|];
    assert OccursAt(a + b, t, |a| + i);
  }

  /** Joining one more element appends the separator and that element. */
  lemma {:induction false} JoinSnoc(xs: seq<string>, x: string, sep: string)
    requires xs != []
    ensures Join(xs + [x], sep) == Join(xs, sep) + sep + x
    decreases |xs|
  {
    var ys := xs + [x];
    assert ys[0] == xs[0] && ys[1..] == xs[1..] + [x];
    if |xs| > 1 {
      JoinSnoc(xs[1..], x, sep);
    } else {
      assert ys[1..] == [x];
    }
  }
}
