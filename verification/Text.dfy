/** Character classes and index scans that Python's `str` and `re` provide to the models. */
module Text {

  /** The characters `str.isspace`, `str.strip` and `\s` agree on. */
  predicate IsSpace(c: char) {
    var n := c as int;
    9 <= n <= 13 || 28 <= n <= 32 || n == 0x85 || n == 0xA0 || n == 0x1680 || 0x2000 <= n <= 0x200A
    || n == 0x2028 || n == 0x2029 || n == 0x202F || n == 0x205F || n == 0x3000
  }

  /** ASCII lower-casing of one character. */
  function Lower(c: char): char {
    if 'A' <= c <= 'Z' then c - 'A' + 'a' else c
  }

  /** First index at or after `i` that holds no space, or the length. */
  function SkipSpaces(t: string, i: nat): (j: nat)
    requires i <= |t|
    ensures i <= j <= |t|
    ensures forall k | i <= k < j :: IsSpace(t[k])
    ensures j < |t| ==> !IsSpace(t[j])
    decreases |t| - i
  {
    if i < |t| && IsSpace(t[i]) then SkipSpaces(t, i + 1) else i
  }

  /** First index at or after `i` that holds `c`, or the length. */
  function Find(t: string, i: nat, c: char): (j: nat)
    requires i <= |t|
    ensures i <= j <= |t|
    ensures forall k | i <= k < j :: t[k] != c
    ensures j < |t| ==> t[j] == c
    decreases |t| - i
  {
    if i < |t| && t[i] != c then Find(t, i + 1, c) else i
  }

  /** End of `t[..n]` once its trailing spaces are dropped. */
  function TrimEnd(t: string, n: nat): (j: nat)
    requires n <= |t|
    ensures j <= n
    ensures forall k | j <= k < n :: IsSpace(t[k])
    ensures j > 0 ==> !IsSpace(t[j - 1])
  {
    if n > 0 && IsSpace(t[n - 1]) then TrimEnd(t, n - 1) else n
  }

  function RStrip(t: string): string {
    t[..TrimEnd(t, |t|)]
  }

  function Strip(t: string): string {
    var r := RStrip(t);
    r[SkipSpaces(r, 0)..]
  }

  ghost predicate AllSpaces(t: string) {
    forall k | 0 <= k < |t| :: IsSpace(t[k])
  }

  /** `s` spells the lower-case word `w` in any case. */
  ghost predicate Spells(s: string, w: string) {
    |s| == |w| && forall k | 0 <= k < |s| :: s[k] == w[k] || s[k] as int + 32 == w[k] as int
  }
}
