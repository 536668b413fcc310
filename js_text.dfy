/** The parts of JavaScript's string built-ins that the API server and the rater
    rely on: the whitespace class shared by the regular-expression escape `\s`
    and `String.prototype.trim`, the ASCII word characters that decide `\b`,
    the combining diacritical marks U+0300..U+036F, `toLowerCase` (ASCII letters
    only), `trim`, `split(/\s+/)` and `filter(Boolean)` on a list of strings. */
module JsText {

  /** WhiteSpace and LineTerminator code points of ECMAScript: what `\s` matches and `trim` removes. */
  predicate IsSpace(c: char) {
    var n := c as int;
    (9 <= n <= 13) || n == 32 || n == 0xA0 || n == 0x1680 || (0x2000 <= n <= 0x200A)
    || n == 0x2028 || n == 0x2029 || n == 0x202F || n == 0x205F || n == 0x3000 || n == 0xFEFF
  }

  /** The characters of the regular-expression class `\w`; `\b` sits between one of them and a non-one. */
  predicate IsWordChar(c: char) {
    ('a' <= c <= 'z') || ('A' <= c <= 'Z') || ('0' <= c <= '9') || c == '_'
  }

  predicate IsUpper(c: char) {
    'A' <= c <= 'Z'
  }

  /** A combining diacritical mark: the code points U+0300 to U+036F that the folding removes. */
  predicate IsMark(c: char) {
    0x300 <= c as int <= 0x36F
  }

  /** `toLowerCase` on one character, for ASCII letters; other characters are left as they are. */
  function ToLower(c: char): (d: char)
    ensures !IsUpper(d)
    ensures IsUpper(c) ==> d as int == c as int + 32
    ensures !IsUpper(c) ==> d == c
    ensures IsMark(d) == IsMark(c) && IsSpace(d) == IsSpace(c) && IsWordChar(d) == IsWordChar(c)
  {
    if IsUpper(c) then (c as int + 32) as char else c
  }

  /** `s` and `t` are the same string up to ASCII letter case. */
  predicate SameUpToCase(s: string, t: string) {
    |s| == |t| && forall i :: 0 <= i < |s| ==> ToLower(s[i]) == ToLower(t[i])
  }

  predicate AllSpace(s: string) {
    forall i :: 0 <= i < |s| ==> IsSpace(s[i])
  }

  predicate NoSpace(s: string) {
    forall i :: 0 <= i < |s| ==> !IsSpace(s[i])
  }

  /** The number of whitespace characters `s` starts with. */
  function LeadingSpace(s: string): (k: nat)
    ensures k <= |s| && AllSpace(s[..k])
    ensures k < |s| ==> !IsSpace(s[k])
  {
    if s != [] && IsSpace(s[0]) then 1 + LeadingSpace(s[1..]) else 0
  }

  /** Where the whitespace that `s` ends with begins. */
  function TrailingStart(s: string): (k: nat)
    ensures k <= |s| && AllSpace(s[k..])
    ensures k > 0 ==> !IsSpace(s[k - 1])
  {
    if s != [] && IsSpace(s[|s| - 1]) then
      var k := TrailingStart(s[..|s| - 1]);
      assert s[k..] == s[..|s| - 1][k..] + [s[|s| - 1]];
      k
    else |s|
  }

  /** The index of the first whitespace character of `s`, or `|s|` if there is none. */
  function FirstSpace(s: string): (k: nat)
    ensures k <= |s| && NoSpace(s[..k])
    ensures k < |s| ==> IsSpace(s[k])
  {
    if s == [] || IsSpace(s[0]) then 0 else 1 + FirstSpace(s[1..])
  }

  /** `String.prototype.trim`: the part of `s` between its leading and its trailing whitespace. */
  function Trim(s: string): (r: string)
    ensures r == [] || (!IsSpace(r[0]) && !IsSpace(r[|r| - 1]))
    ensures LeadingSpace(s) + |r| <= |s|
    ensures r == s[LeadingSpace(s)..LeadingSpace(s) + |r|]
    ensures AllSpace(s[LeadingSpace(s) + |r|..])
  {
    var lo := LeadingSpace(s);
    var t := s[lo..];
    assert s[lo + TrailingStart(t)..] == t[TrailingStart(t)..];
    t[..TrailingStart(t)]
  }

  /** `s.split(/\s+/)`: the pieces between the maximal runs of whitespace, empty ones included. */
  function SplitWs(s: string): (parts: seq<string>)
    ensures |parts| >= 1 && parts[0] == s[..FirstSpace(s)]
    ensures forall i :: 0 <= i < |parts| ==> NoSpace(parts[i])
    decreases |s|
  {
    var a := FirstSpace(s);
    if a == |s| then [s]
    else
      var b := a + LeadingSpace(s[a..]);
      [s[..a]] + SplitWs(s[b..])
  }

  /** `parts.filter(Boolean)`: the non-empty strings of `parts`, in order. */
  function NonEmpty(parts: seq<string>): (r: seq<string>)
    ensures |r| <= |parts|
    ensures forall x :: x in r <==> x in parts && x != []
  {
    if parts == [] then []
    else (if parts[0] == [] then [] else [parts[0]]) + NonEmpty(parts[1..])
  }

  /** Trimming a string that neither starts nor ends with whitespace leaves it as it is;
      in particular `trim` is idempotent. */
  lemma TrimFixed(s: string)
    requires s == [] || (!IsSpace(s[0]) && !IsSpace(s[|s| - 1]))
    ensures Trim(s) == s
  {
  }

  lemma TrimIdempotent(s: string)
    ensures Trim(Trim(s)) == Trim(s)
  {
    TrimFixed(Trim(s));
  }

  /** `trim` removes exactly the whitespace around a core that neither starts nor ends
      with whitespace. */
  lemma TrimUnique(a: string, r: string, b: string)
    requires AllSpace(a) && AllSpace(b)
    requires r == [] || (!IsSpace(r[0]) && !IsSpace(r[|r| - 1]))
    ensures Trim(a + r + b) == r
  {
    var x := a + r + b;
    var k := LeadingSpace(x);
    var t := Trim(x);
    if r == [] {
      assert k == |x|;
    } else {
      assert x[|a|] == r[0];
      assert k == |a|;
      var m := |t|;
      assert x[|a| + |r| - 1] == r[|r| - 1];
      assert m == |r|;
      assert t == x[|a|..|a| + |r|];
    }
  }

  /** Whitespace added around a string does not change its trimmed form. */
  lemma TrimSurrounding(a: string, s: string, b: string)
    requires AllSpace(a) && AllSpace(b)
    ensures Trim(a + s + b) == Trim(s)
  {
    var lead, trail := TrimParts(s);
    var r := Trim(s);
    assert a + s + b == (a + lead) + r + (trail + b);
    AllSpaceConcat(a, lead);
    AllSpaceConcat(trail, b);
    TrimUnique(a + lead, r, trail + b);
  }

  /** A string is its leading whitespace, its trimmed form and its trailing whitespace. */
  lemma TrimParts(s: string) returns (lead: string, trail: string)
    ensures AllSpace(lead) && AllSpace(trail) && s == lead + Trim(s) + trail
  {
    var k := LeadingSpace(s);
    var r := Trim(s);
    lead := s[..k];
    trail := s[k + |r|..];
    assert s == s[..k] + s[k..k + |r|] + s[k + |r|..];
  }

  lemma AllSpaceConcat(x: string, y: string)
    requires AllSpace(x) && AllSpace(y)
    ensures AllSpace(x + y)
  {
    forall i | 0 <= i < |x + y| ensures IsSpace((x + y)[i]) {
      if i < |x| {
        assert (x + y)[i] == x[i];
      } else {
        assert (x + y)[i] == y[i - |x|];
      }
    }
  }
}
