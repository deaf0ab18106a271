/** The string operations the report uses: format-spec padding and `str.rstrip()`. */
module Text {

  /** Python's `str.isspace` for one character: the characters `str.rstrip()` removes. */
  predicate IsWhitespace(c: char) {
    || ('\U{9}' <= c <= '\U{D}')
    || ('\U{1C}' <= c <= ' ')
    || c == '\U{85}' || c == '\U{A0}' || c == '\U{1680}'
    || ('\U{2000}' <= c <= '\U{200A}')
    || c == '\U{2028}' || c == '\U{2029}' || c == '\U{202F}' || c == '\U{205F}' || c == '\U{3000}'
  }

  function Spaces(n: nat): (s: string)
    ensures |s| == n
    ensures forall i :: 0 <= i < n ==> s[i] == ' '
  {
    if n == 0 then "" else " " + Spaces(n - 1)
  }

  function Max(a: nat, b: nat): nat {
    if a < b then b else a
  }

  /** `'{:w}'.format(s)`: `s` left-aligned, padded with spaces to at least `w` characters. */
  function PadRight(s: string, w: nat): (r: string)
    ensures |r| == Max(|s|, w)
    ensures r[..|s|] == s
    ensures forall i :: |s| <= i < |r| ==> r[i] == ' '
  {
    if |s| < w then s + Spaces(w - |s|) else s
  }

  /** `'{:>w}'.format(s)`: `s` right-aligned, padded with spaces to at least `w` characters. */
  function PadLeft(s: string, w: nat): (r: string)
    ensures |r| == Max(|s|, w)
    ensures r[|r| - |s|..] == s
    ensures forall i :: 0 <= i < |r| - |s| ==> r[i] == ' '
  {
    if |s| < w then Spaces(w - |s|) + s else s
  }

  /** No trailing whitespace. */
  predicate Trimmed(s: string) {
    s == [] || !IsWhitespace(s[|s| - 1])
  }

  /** `s.rstrip()`: the longest prefix of `s` that does not end in whitespace. */
  function RStrip(s: string): (r: string)
    ensures |r| <= |s| && r == s[..|r|]
    ensures Trimmed(r)
    ensures forall i :: |r| <= i < |s| ==> IsWhitespace(s[i])
  {
    if s == [] then []
    else if IsWhitespace(s[|s| - 1]) then RStrip(s[..|s| - 1])
    else s
  }

  /** Only the whitespace tail of `q` goes when `q` holds some other character. */
  lemma {:induction false} RStripAppend(p: string, q: string)
    requires exists i :: 0 <= i < |q| && !IsWhitespace(q[i])
    ensures RStrip(p + q) == p + RStrip(q)
  {
    var n := |q|;
    if IsWhitespace(q[n - 1]) {
      assert (p + q)[..|p + q| - 1] == p + q[..n - 1];
      var i :| 0 <= i < |q| && !IsWhitespace(q[i]);
      assert q[..n - 1][i] == q[i];
      RStripAppend(p, q[..n - 1]);
    }
  }

  /** A string whose last character is not whitespace is left alone. */
  lemma RStripKeeps(s: string)
    requires Trimmed(s)
    ensures RStrip(s) == s
  {
  }
}
