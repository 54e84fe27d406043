/**
 * The byte-string primitives the tracer relies on: PHP's `strpos`, prefix and
 * substring tests, `str_repeat` and `implode`. A PHP string is modelled as a
 * `seq<char>` holding one character per byte, so lengths are byte counts as
 * `strlen` reports them.
 */
module Text {
  import opened Wrappers

  /** `needle` occurs in `haystack` starting at byte offset `i`. */
  predicate OccursAt(haystack: string, needle: string, i: nat) {
    i + |needle| <= |haystack| && haystack[i..i + |needle|] == needle
  }

  /** `prefix` is an initial segment of `s`. */
  predicate IsPrefix(prefix: string, s: string) {
    |prefix| <= |s| && s[..|prefix|] == prefix
  }

  /** `needle` occurs somewhere in `haystack`. */
  ghost predicate Contains(haystack: string, needle: string) {
    exists i: nat :: OccursAt(haystack, needle, i)
  }

  /** The first occurrence of `needle` at or after offset `from`, scanning left to right. */
  function StrPosFrom(haystack: string, needle: string, from: nat): (r: Option<nat>)
    ensures r.Some? ==> from <= r.value && OccursAt(haystack, needle, r.value)
    ensures r.Some? ==> forall j: nat :: from <= j < r.value ==> !OccursAt(haystack, needle, j)
    ensures r.None? ==> forall j: nat :: from <= j ==> !OccursAt(haystack, needle, j)
    decreases |haystack| - from
  {
    if from + |needle| > |haystack| then None
    else if haystack[from..from + |needle|] == needle then Some(from)
    else StrPosFrom(haystack, needle, from + 1)
  }

  /**
   * PHP 8's `strpos($haystack, $needle)`: the offset of the first occurrence,
   * or nothing (PHP's `false`). An empty needle is found at offset 0.
   */
  function StrPos(haystack: string, needle: string): (r: Option<nat>)
    ensures r == Some(0) <==> IsPrefix(needle, haystack)
    ensures r.Some? <==> Contains(haystack, needle)
    ensures r.Some? ==> OccursAt(haystack, needle, r.value)
    ensures r.Some? ==> forall j: nat :: j < r.value ==> !OccursAt(haystack, needle, j)
  {
    var r := StrPosFrom(haystack, needle, 0);
    assert IsPrefix(needle, haystack) <==> OccursAt(haystack, needle, 0);
    r
  }

  /** PHP's `str_repeat(s, n)`: `n` copies of `s`, so every byte comes from `s`. */
  function Repeat(s: string, n: nat): (r: string)
    ensures |r| == n * |s|
    ensures forall i :: 0 <= i < |r| ==> r[i] in s
  {
    if n == 0 then ""
    else
      var rest := Repeat(s, n - 1);
      assert |s + rest| == |s| + (n - 1) * |s| == n * |s|;
      s + rest
  }

  /** PHP's `implode(sep, parts)`: the parts in order with `sep` between neighbours. */
  function Join(sep: string, parts: seq<string>): string
  {
    if |parts| == 0 then ""
    else if |parts| == 1 then parts[0]
    else parts[0] + sep + Join(sep, parts[1..])
  }

  /** Joining two non-empty lists puts exactly one separator at the seam. */
  lemma {:induction false} JoinAppend(sep: string, xs: seq<string>, ys: seq<string>)
    requires |xs| > 0 && |ys| > 0
    ensures Join(sep, xs + ys) == Join(sep, xs) + sep + Join(sep, ys)
  {
    if |xs| == 1 {
      assert (xs + ys)[1..] == ys;
    } else {
      assert (xs + ys)[1..] == xs[1..] + ys;
      JoinAppend(sep, xs[1..], ys);
    }
  }

  /** The joined length is the parts' lengths plus one separator between each pair. */
  lemma {:induction false} JoinLength(sep: string, parts: seq<string>)
    requires |parts| > 0
    ensures |Join(sep, parts)| == TotalLength(parts) + (|parts| - 1) * |sep|
  {
    if |parts| > 1 {
      JoinLength(sep, parts[1..]);
    }
  }

  /** Sum of the lengths of `parts`. */
  function TotalLength(parts: seq<string>): nat
  {
    if |parts| == 0 then 0 else |parts[0]| + TotalLength(parts[1..])
  }
}
