/** NUL-terminated strings in fixed buffers. A `string` stands for the characters
    before the NUL. */
module CStrings {
  /** `strncpy` into a buffer of `cap` characters that keeps its last NUL:
      at most `cap - 1` characters survive. */
  function Clip(s: string, cap: nat): (r: string)
    requires cap > 0
    ensures |r| < cap && r <= s
  {
    if |s| < cap then s else s[..cap - 1]
  }

  /** `strncmp(a, b, n) == 0` for strings that hold no NUL. */
  predicate StrnEq(a: string, b: string, n: nat) {
    if |a| < n || |b| < n then a == b else a[..n] == b[..n]
  }

  /** The characters a C string can hold: one byte each, never NUL. */
  predicate CText(s: string) {
    forall i :: 0 <= i < |s| ==> 0 < s[i] as int < 256
  }

  predicate IsDigit(c: char) { '0' <= c <= '9' }

  predicate AllDigits(s: string) { forall i :: 0 <= i < |s| ==> IsDigit(s[i]) }

  /** `strchr`: the first place of `c` at or after `from`, or the length. */
  function IndexOf(s: string, c: char, from: nat): (k: nat)
    requires from <= |s|
    ensures from <= k <= |s|
    ensures k < |s| ==> s[k] == c
    ensures forall i :: from <= i < k ==> s[i] != c
    decreases |s| - from
  {
    if from == |s| || s[from] == c then from else IndexOf(s, c, from + 1)
  }

  lemma IndexOfIs(s: string, c: char, from: nat, k: nat)
    requires from <= k < |s| && s[k] == c
    requires forall i :: from <= i < k ==> s[i] != c
    ensures IndexOf(s, c, from) == k
  {
  }

  method FindChar(s: string, c: char, from: nat) returns (k: nat)
    requires from <= |s|
    ensures k == IndexOf(s, c, from)
  {
    k := from;
    while k < |s| && s[k] != c
      invariant from <= k <= |s|
      invariant IndexOf(s, c, from) == IndexOf(s, c, k)
    {
      k := k + 1;
    }
  }

  /** `snprintf` of a text that fits. */
  method PrintInto(text: string, output: array<char>)
    requires |text| < output.Length
    modifies output
    ensures output[..|text|] == text && output[|text|] == '\0'
    ensures forall i :: |text| < i < output.Length ==> output[i] == old(output[i])
  {
    var i := 0;
    while i < |text|
      invariant 0 <= i <= |text|
      invariant forall j :: 0 <= j < i ==> output[j] == text[j]
      invariant forall j :: |text| < j < output.Length ==> output[j] == old(output[j])
    {
      output[i] := text[i];
      i := i + 1;
    }
    output[|text|] := '\0';
  }
}
