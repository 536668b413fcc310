/** The helper functions of the API server (api.mjs lines 17-26): `clamp`,
    `tokCount`, the diacritic- and case-folding `strip`, the length score
    `brevity` and the whole-word leak test `leaks`. */
module ApiHelpers {
  import opened JsText

  // ---------------------------------------------------------------- clamp

  /** `Math.min(hi, Math.max(lo, x))`. */
  function Clamp(x: real, lo: real, hi: real): (r: real)
    ensures lo <= hi ==> lo <= r <= hi
    ensures lo <= x <= hi ==> r == x
    ensures lo <= hi && x < lo ==> r == lo
    ensures hi < x ==> r == hi
  {
    var m := if lo < x then x else lo;
    if m < hi then m else hi
  }

  // ------------------------------------------------------------- tokCount

  /** `String(s).trim().split(/\s+/).filter(Boolean).length`; a missing value is
      coerced to the empty string before it reaches here. */
  function TokCount(s: string): nat {
    |NonEmpty(SplitWs(Trim(s)))|
  }

  /** Position `i` of `s` begins a maximal run of non-whitespace characters. */
  predicate IsRunStart(s: string, i: nat)
    requires i < |s|
  {
    !IsSpace(s[i]) && (i == 0 || IsSpace(s[i - 1]))
  }

  /** The number of positions in `[i, j)` that begin a run. */
  function Starts(s: string, i: nat, j: nat): nat
    requires i <= j <= |s|
    decreases j - i
  {
    if i == j then 0 else (if IsRunStart(s, i) then 1 else 0) + Starts(s, i + 1, j)
  }

  /** The number of maximal runs of non-whitespace characters in `s`. */
  function RunCount(s: string): nat {
    Starts(s, 0, |s|)
  }

  lemma {:induction false} StartsNone(s: string, i: nat, j: nat)
    requires i <= j <= |s|
    requires forall k :: i <= k < j ==> !IsRunStart(s, k)
    ensures Starts(s, i, j) == 0
    decreases j - i
  {
    if i < j {
      StartsNone(s, i + 1, j);
    }
  }

  lemma {:induction false} StartsAppend(s: string, i: nat, k: nat, j: nat)
    requires i <= k <= j <= |s|
    ensures Starts(s, i, j) == Starts(s, i, k) + Starts(s, k, j)
    decreases k - i
  {
    if i < k {
      StartsAppend(s, i + 1, k, j);
    }
  }

  /** Counting run starts inside the window `s[lo..hi]` gives the same answer as in `s`
      when the window begins at the start of `s` or just after whitespace. */
  lemma {:induction false} StartsWindow(s: string, lo: nat, hi: nat, i: nat, j: nat)
    requires lo <= i <= j <= hi <= |s|
    requires lo == 0 || IsSpace(s[lo - 1])
    ensures Starts(s, i, j) == Starts(s[lo..hi], i - lo, j - lo)
    decreases j - i
  {
    if i < j {
      StartsWindow(s, lo, hi, i + 1, j);
      assert IsRunStart(s, i) == IsRunStart(s[lo..hi], i - lo);
    }
  }

  /** One step of `split`: the piece before the first whitespace run, then the rest. */
  lemma {:induction false} SplitStep(u: string, a: nat, b: nat)
    requires a == FirstSpace(u) < |u| && b == a + LeadingSpace(u[a..])
    ensures a < b <= |u| && AllSpace(u[a..b])
    ensures |NonEmpty(SplitWs(u))| == (if a == 0 then 0 else 1) + |NonEmpty(SplitWs(u[b..]))|
  {
    SplitGap(u, a, b);
    SplitUnfold(u, a, b);
    NonEmptyCons(u[..a], SplitWs(u[b..]));
  }

  lemma {:induction false} SplitGap(u: string, a: nat, b: nat)
    requires a == FirstSpace(u) < |u| && b == a + LeadingSpace(u[a..])
    ensures a < b <= |u| && AllSpace(u[a..b])
  {
    assert u[a..][0] == u[a];
    assert u[a..][..b - a] == u[a..b];
  }

  lemma {:induction false} SplitUnfold(u: string, a: nat, b: nat)
    requires a == FirstSpace(u) < |u| && b == a + LeadingSpace(u[a..])
    ensures SplitWs(u) == [u[..a]] + SplitWs(u[b..])
  {
  }

  lemma {:induction false} NonEmptyCons(x: string, rest: seq<string>)
    ensures |NonEmpty([x] + rest)| == (if x == [] then 0 else 1) + |NonEmpty(rest)|
  {
    assert ([x] + rest)[1..] == rest;
  }

  /** Before the first whitespace of `u` there is at most one run start, at 0. */
  lemma {:induction false} RunsBeforeSpace(u: string, a: nat)
    requires a == FirstSpace(u)
    ensures Starts(u, 0, a) == (if a == 0 then 0 else 1)
  {
    if a > 0 {
      StartsNone(u, 1, a);
    }
  }

  /** No run starts inside whitespace. */
  lemma {:induction false} RunsInSpace(u: string, a: nat, b: nat)
    requires a <= b <= |u| && AllSpace(u[a..b])
    ensures Starts(u, a, b) == 0
  {
    forall k | a <= k < b ensures !IsRunStart(u, k) {
      assert u[a..b][k - a] == u[k];
    }
    StartsNone(u, a, b);
  }

  /** The runs after a whitespace character are the runs of the suffix. */
  lemma {:induction false} RunsAfterSpace(u: string, b: nat)
    requires 0 < b <= |u| && IsSpace(u[b - 1])
    ensures Starts(u, b, |u|) == RunCount(u[b..])
  {
    StartsWindow(u, b, |u|, b, |u|);
    assert u[b..|u|] == u[b..];
  }

  /** The runs of `u` are the one before its first whitespace (if any) and those after
      the whitespace run at `[a, b)`. */
  lemma {:induction false} RunsStep(u: string, a: nat, b: nat)
    requires a == FirstSpace(u) < b <= |u| && AllSpace(u[a..b])
    ensures RunCount(u) == (if a == 0 then 0 else 1) + RunCount(u[b..])
  {
    RunsBeforeSpace(u, a);
    RunsInSpace(u, a, b);
    assert u[b - 1] == u[a..b][b - 1 - a];
    RunsAfterSpace(u, b);
    StartsAppend(u, 0, a, |u|);
    StartsAppend(u, a, b, |u|);
  }

  /** Splitting at whitespace and dropping the empty pieces leaves one piece per run. */
  lemma {:induction false} SplitCountsRuns(u: string)
    ensures |NonEmpty(SplitWs(u))| == RunCount(u)
    decreases |u|
  {
    var a := FirstSpace(u);
    if a == |u| {
      assert SplitWs(u) == [u];
      RunsBeforeSpace(u, a);
    } else {
      var b := a + LeadingSpace(u[a..]);
      SplitStep(u, a, b);
      RunsStep(u, a, b);
      SplitCountsRuns(u[b..]);
    }
  }

  /** Trimming never adds or removes a run. */
  lemma {:induction false} TrimKeepsRuns(s: string)
    ensures RunCount(Trim(s)) == RunCount(s)
  {
    var lo := LeadingSpace(s);
    var hi := lo + |Trim(s)|;
    StartsAppend(s, 0, lo, |s|);
    StartsAppend(s, lo, hi, |s|);
    StartsNone(s, 0, lo);
    StartsNone(s, hi, |s|);
    StartsWindow(s, lo, hi, lo, hi);
  }

  /** `tokCount` counts exactly the maximal non-whitespace runs of its input. */
  lemma TokCountIsRunCount(s: string)
    ensures TokCount(s) == RunCount(s)
  {
    SplitCountsRuns(Trim(s));
    TrimKeepsRuns(s);
  }

  /** `tokCount` is 0 exactly for empty and whitespace-only strings (and so for a
      missing value, which is coerced to the empty string). */
  lemma TokCountZero(s: string)
    ensures TokCount(s) == 0 <==> AllSpace(s)
  {
    TokCountIsRunCount(s);
    if AllSpace(s) {
      StartsNone(s, 0, |s|);
    } else {
      var m := LeadingSpace(s);
      assert IsRunStart(s, m);
      StartsAppend(s, 0, m, |s|);
    }
  }

  // ---------------------------------------------------------------- strip

  /** `String(s).toLowerCase().normalize('NFD')` followed by the removal of the
      combining marks U+0300..U+036F. */
  function Strip(s: string): (r: string)
    ensures |r| <= |s|
    ensures forall i :: 0 <= i < |r| ==> !IsMark(r[i]) && !IsUpper(r[i])
  {
    if s == [] then []
    else (if IsMark(s[0]) then [] else [ToLower(s[0])]) + Strip(s[1..])
  }

  /** A string whose characters are already folded. */
  predicate Folded(s: string) {
    forall i :: 0 <= i < |s| ==> !IsMark(s[i]) && !IsUpper(s[i])
  }

  lemma {:induction false} StripFixed(s: string)
    requires Folded(s)
    ensures Strip(s) == s
  {
    if s != [] {
      StripFixed(s[1..]);
    }
  }

  /** Folding twice is folding once. */
  lemma StripIdempotent(s: string)
    ensures Strip(Strip(s)) == Strip(s)
  {
    StripFixed(Strip(s));
  }

  /** Folding works character by character. */
  lemma {:induction false} StripConcat(a: string, b: string)
    ensures Strip(a + b) == Strip(a) + Strip(b)
  {
    if a == [] {
      assert a + b == b;
    } else {
      assert (a + b)[0] == a[0] && (a + b)[1..] == a[1..] + b;
      StripConcat(a[1..], b);
    }
  }

  /** Folding one character: a mark disappears, anything else is lowered. */
  lemma StripChar(c: char)
    ensures Strip([c]) == if IsMark(c) then [] else [ToLower(c)]
  {
    assert [c][1..] == [];
  }

  /** A string without marks keeps its length under folding, and each character is lowered. */
  lemma {:induction false} StripNoMarks(s: string)
    requires forall i :: 0 <= i < |s| ==> !IsMark(s[i])
    ensures |Strip(s)| == |s|
    ensures forall i :: 0 <= i < |s| ==> Strip(s)[i] == ToLower(s[i])
  {
    if s != [] {
      StripNoMarks(s[1..]);
      assert Strip(s) == [ToLower(s[0])] + Strip(s[1..]);
    }
  }

  /** Strings that differ only in ASCII letter case fold to the same string. */
  lemma {:induction false} StripIgnoresCase(s: string, t: string)
    requires SameUpToCase(s, t)
    ensures Strip(s) == Strip(t)
  {
    if s != [] {
      assert IsMark(s[0]) == IsMark(t[0]) by {
        assert IsMark(ToLower(s[0])) == IsMark(ToLower(t[0]));
      }
      assert SameUpToCase(s[1..], t[1..]) by {
        forall i | 0 <= i < |s[1..]| ensures ToLower(s[1..][i]) == ToLower(t[1..][i]) {
          assert s[1..][i] == s[i + 1] && t[1..][i] == t[i + 1];
        }
      }
      StripIgnoresCase(s[1..], t[1..]);
    }
  }

  /** A combining mark anywhere in a string is removed by folding. */
  lemma StripDropsMark(a: string, m: char, b: string)
    requires IsMark(m)
    ensures Strip(a + [m] + b) == Strip(a + b)
  {
    StripConcat(a + [m], b);
    StripConcat(a, [m]);
    StripChar(m);
    StripConcat(a, b);
  }

  /** Whitespace is left as it is by folding. */
  lemma StripKeepsSpace(ws: string)
    requires AllSpace(ws)
    ensures Strip(ws) == ws
  {
    StripFixed(ws);
  }

  /** Folding keeps whitespace out of a string that has none. */
  lemma {:induction false} StripNoSpace(s: string)
    requires NoSpace(s)
    ensures NoSpace(Strip(s))
  {
    if s != [] {
      StripNoSpace(s[1..]);
    }
  }

  // -------------------------------------------------------------- brevity

  /** What the model assumes of `Math.log`: `log(1) = 0` and it grows strictly from 1 on. */
  ghost predicate LogShape(ln: real -> real) {
    ln(1.0) == 0.0 &&
    forall x: real, y: real :: 1.0 <= x < y ==> ln(x) < ln(y)
  }

  /** The length penalty `(n/50) * Math.log(1 + n)`, with `Math.log` as the parameter `ln`. */
  function Penalty(ln: real -> real, n: nat): real {
    (n as real / 50.0) * ln(1.0 + n as real)
  }

  /** `brevity(n) = 1 / (1 + (n/50) * Math.log(1 + n))`. */
  function Brevity(ln: real -> real, n: nat): real
    requires 1.0 + Penalty(ln, n) != 0.0
  {
    1.0 / (1.0 + Penalty(ln, n))
  }

  lemma PenaltyNonNegative(ln: real -> real, n: nat)
    requires LogShape(ln)
    ensures Penalty(ln, n) >= 0.0
    ensures n == 0 ==> Penalty(ln, n) == 0.0
  {
    if n > 0 {
      assert ln(1.0) < ln(1.0 + n as real);
      MulNonNegative(n as real / 50.0, ln(1.0 + n as real));
    }
  }

  lemma MulNonNegative(x: real, y: real)
    requires x >= 0.0 && y >= 0.0
    ensures x * y >= 0.0
  {
  }

  lemma MulBelow(u: real, x: real)
    requires 0.0 <= u < 1.0 && 0.0 < x
    ensures u * x < x
  {
    assert x - u * x == (1.0 - u) * x;
  }

  lemma MulStrictlyGrows(x0: real, y0: real, x1: real, y1: real)
    requires 0.0 <= x0 < x1 && 0.0 <= y0 < y1
    ensures x0 * y0 < x1 * y1
  {
    assert x0 * y0 <= x1 * y0;
    assert x1 * y0 < x1 * y1;
  }

  lemma PenaltyGrows(ln: real -> real, m: nat, n: nat)
    requires LogShape(ln) && m < n
    ensures Penalty(ln, m) < Penalty(ln, n)
  {
    if m > 0 {
      assert ln(1.0) < ln(1.0 + m as real);
    }
    assert ln(1.0 + m as real) < ln(1.0 + n as real);
    MulStrictlyGrows(m as real / 50.0, ln(1.0 + m as real), n as real / 50.0, ln(1.0 + n as real));
  }

  /** `brevity` is defined everywhere, lies in (0, 1] and is 1 at 0. */
  lemma BrevityRange(ln: real -> real, n: nat)
    requires LogShape(ln)
    ensures 1.0 + Penalty(ln, n) > 0.0
    ensures 0.0 < Brevity(ln, n) <= 1.0
    ensures n == 0 ==> Brevity(ln, n) == 1.0
  {
    PenaltyNonNegative(ln, n);
    var d := 1.0 + Penalty(ln, n);
    assert 1.0 / d <= 1.0 by {
      assert d >= 1.0;
    }
  }

  /** `brevity` is strictly decreasing: a longer hint always scores less. */
  lemma BrevityDecreasing(ln: real -> real, m: nat, n: nat)
    requires LogShape(ln) && m < n
    ensures 1.0 + Penalty(ln, m) > 0.0 && 1.0 + Penalty(ln, n) > 0.0
    ensures Brevity(ln, n) < Brevity(ln, m)
  {
    PenaltyNonNegative(ln, m);
    PenaltyNonNegative(ln, n);
    PenaltyGrows(ln, m, n);
    DivideShrinks(1.0 + Penalty(ln, m), 1.0 + Penalty(ln, n));
  }

  lemma DivideShrinks(d0: real, d1: real)
    requires 0.0 < d0 < d1
    ensures 1.0 / d1 < 1.0 / d0
  {
  }

  // ---------------------------------------------------------------- leaks

  /** A word boundary `\b` at position `i` of `h`: exactly one of the characters
      around it is a word character (outside the string counts as a non-word character). */
  predicate Boundary(h: string, i: nat)
    requires i <= |h|
  {
    (i > 0 && IsWordChar(h[i - 1])) != (i < |h| && IsWordChar(h[i]))
  }

  /** The pattern `\bf\b` matches `h` at position `p`. */
  predicate WordAt(h: string, f: string, p: nat)
    requires p + |f| <= |h|
  {
    h[p..p + |f|] == f && Boundary(h, p) && Boundary(h, p + |f|)
  }

  /** `new RegExp('\\b' + f + '\\b', 'i').test(h)`, with `f` matched literally;
      both strings are folded to lower case before the test, so the `i` flag adds nothing. */
  predicate OccursAsWord(h: string, f: string) {
    exists p: nat :: p + |f| <= |h| && WordAt(h, f, p)
  }

  /** `[target, ...aliases].map(strip).filter(Boolean)`: the forbidden forms. */
  function Forms(target: string, aliases: seq<string>): (r: seq<string>)
    ensures forall f :: f in r <==> f != [] && exists s :: s in [target] + aliases && Strip(s) == f
  {
    var words := [target] + aliases;
    var folded := seq(|words|, i requires 0 <= i < |words| => Strip(words[i]));
    assert forall f :: f in folded <==> exists s :: s in words && Strip(s) == f by {
      forall f ensures f in folded <==> exists s :: s in words && Strip(s) == f {
        if f in folded {
          var i :| 0 <= i < |folded| && folded[i] == f;
          assert words[i] in words;
        }
        if exists s :: s in words && Strip(s) == f {
          var s :| s in words && Strip(s) == f;
          var i :| 0 <= i < |words| && words[i] == s;
          assert folded[i] == f;
        }
      }
    }
    NonEmpty(folded)
  }

  /** The reference meaning of `leaks`: the target or some alias whose folded form is
      not empty occurs as a whole word in the folded text. */
  predicate Leaks(text: string, target: string, aliases: seq<string>) {
    exists s :: s in [target] + aliases && Strip(s) != [] && OccursAsWord(Strip(text), Strip(s))
  }

  /** `leaks(text, target, aliases)`: the loop over the forbidden forms, returning on the first match. */
  method LeaksScan(text: string, target: string, aliases: seq<string>) returns (found: bool)
    ensures found == Leaks(text, target, aliases)
  {
    var h := Strip(text);
    var forms := Forms(target, aliases);
    for i := 0 to |forms|
      invariant forall j :: 0 <= j < i ==> !OccursAsWord(h, forms[j])
    {
      if OccursAsWord(h, forms[i]) {
        assert forms[i] in forms;
        return true;
      }
    }
    forall s | s in [target] + aliases && Strip(s) != [] ensures !OccursAsWord(h, Strip(s)) {
      assert Strip(s) in forms;
    }
    return false;
  }

  /** A form made only of word characters is found exactly where it stands in the text
      with no word character directly before or after it: an occurrence inside a longer
      word does not count. */
  lemma WordAtPlainForm(h: string, f: string, p: nat)
    requires f != [] && p + |f| <= |h|
    requires forall i :: 0 <= i < |f| ==> IsWordChar(f[i])
    ensures WordAt(h, f, p) <==>
      h[p..p + |f|] == f
      && (p == 0 || !IsWordChar(h[p - 1]))
      && (p + |f| == |h| || !IsWordChar(h[p + |f|]))
  {
    if h[p..p + |f|] == f {
      assert h[p] == f[0];
      assert h[p + |f| - 1] == f[|f| - 1];
    }
  }

  /** Adding aliases can only make more hints leak. */
  lemma LeaksMonotone(text: string, target: string, aliases: seq<string>, more: seq<string>)
    requires Leaks(text, target, aliases)
    ensures Leaks(text, target, aliases + more)
  {
    var s :| s in [target] + aliases && Strip(s) != [] && OccursAsWord(Strip(text), Strip(s));
    assert s in [target] + (aliases + more);
  }

  /** The test is insensitive to case and diacritics of the text: folding the text first changes nothing. */
  lemma LeaksFoldedText(text: string, target: string, aliases: seq<string>)
    ensures Leaks(Strip(text), target, aliases) == Leaks(text, target, aliases)
  {
    StripIdempotent(text);
  }

  /** The verdict does not depend on the letter case of the text. */
  lemma LeaksIgnoresCase(text: string, other: string, target: string, aliases: seq<string>)
    requires SameUpToCase(text, other)
    ensures Leaks(text, target, aliases) == Leaks(other, target, aliases)
  {
    StripIgnoresCase(text, other);
  }

  /** The verdict does not depend on a combining mark in the text. */
  lemma LeaksIgnoresMark(a: string, m: char, b: string, target: string, aliases: seq<string>)
    requires IsMark(m)
    ensures Leaks(a + [m] + b, target, aliases) == Leaks(a + b, target, aliases)
  {
    StripDropsMark(a, m, b);
  }

  /** The verdict does not depend on the letter case of the target. */
  lemma LeaksIgnoresTargetCase(text: string, target: string, other: string, aliases: seq<string>)
    requires SameUpToCase(target, other)
    ensures Leaks(text, target, aliases) == Leaks(text, other, aliases)
  {
    StripIgnoresCase(target, other);
    if Leaks(text, target, aliases) {
      var s :| s in [target] + aliases && Strip(s) != [] && OccursAsWord(Strip(text), Strip(s));
      if s == target {
        assert other in [other] + aliases;
      } else {
        assert s in [other] + aliases;
      }
    }
    if Leaks(text, other, aliases) {
      var s :| s in [other] + aliases && Strip(s) != [] && OccursAsWord(Strip(text), Strip(s));
      if s == other {
        assert target in [target] + aliases;
      } else {
        assert s in [target] + aliases;
      }
    }
  }

  /** Only a text with at least one character can leak. */
  lemma LeaksNeedsText(text: string, target: string, aliases: seq<string>)
    requires Leaks(text, target, aliases)
    ensures text != []
  {
    var s :| s in [target] + aliases && Strip(s) != [] && OccursAsWord(Strip(text), Strip(s));
    var p: nat :| p + |Strip(s)| <= |Strip(text)| && WordAt(Strip(text), Strip(s), p);
  }

  /** A target and aliases that fold to the empty string never leak: empty forms are ignored. */
  lemma EmptyFormsNeverLeak(text: string, target: string, aliases: seq<string>)
    requires Strip(target) == [] && forall a :: a in aliases ==> Strip(a) == []
    ensures !Leaks(text, target, aliases)
  {
  }

  /** A hint that contains the target or an alias as a whole word leaks, whatever
      surrounds it, provided the folded word begins and ends with word characters and
      the folded neighbours are not word characters. */
  lemma PlantedWordLeaks(pre: string, w: string, post: string, target: string, aliases: seq<string>)
    requires Strip(w) == Strip(target) || exists a :: a in aliases && Strip(w) == Strip(a)
    requires Strip(w) != [] && IsWordChar(Strip(w)[0]) && IsWordChar(Strip(w)[|Strip(w)| - 1])
    requires Strip(pre) == [] || !IsWordChar(Strip(pre)[|Strip(pre)| - 1])
    requires Strip(post) == [] || !IsWordChar(Strip(post)[0])
    ensures Leaks(pre + w + post, target, aliases)
  {
    var f := Strip(w);
    StripConcat(pre + w, post);
    StripConcat(pre, w);
    var h := Strip(pre) + f + Strip(post);
    var p := |Strip(pre)|;
    assert h[p..p + |f|] == f;
    assert WordAt(h, f, p);
    if Strip(w) == Strip(target) {
      assert target in [target] + aliases;
    } else {
      var a :| a in aliases && Strip(w) == Strip(a);
      assert a in [target] + aliases;
    }
  }

  /** The leaking example hint: "cat" in "A cat is a small pet".
      The pieces are parameters fixed by `requires`, so the proof works on them rather
      than unfolding the definitions on the whole literal sentence. */
  lemma CatHintLeaks(pre: string, target: string, post: string)
    requires pre == "A " && target == "cat" && post == " is a small pet"
    ensures Leaks(pre + target + post, target, [])
  {
    assert Strip(pre) == "a " by {
      assert pre == ['A'] + [' '];
    }
    StripFixed(post);
    StripFixed(target);
    assert Strip(post)[0] == ' ';
    PlantedWordLeaks(pre, target, post, target, []);
  }

  /** Shouting the target does not hide it: "CAT" in "The CAT sat" leaks the target "cat".
      The pieces are parameters fixed by `requires`, so the proof works on them rather
      than unfolding the definitions on the whole literal sentence. */
  lemma ShoutedCatLeaks(pre: string, w: string, post: string, target: string)
    requires pre == "The " && w == "CAT" && post == " sat" && target == "cat"
    ensures Leaks(pre + w + post, target, [])
  {
    assert SameUpToCase(w, target);
    StripIgnoresCase(w, target);
    StripFixed(target);
    StripNoMarks(pre);
    StripNoMarks(post);
    assert Strip(post)[0] == ToLower(' ');
    assert Strip(pre)[3] == ToLower(' ');
    PlantedWordLeaks(pre, w, post, target, []);
  }

  /** "cat" inside "concatenate" is not a whole word, so it does not leak.
      The pieces are parameters fixed by `requires`, so the proof works on them rather
      than unfolding the definitions on the whole literal sentence. */
  lemma CatInsideWordDoesNotLeak(text: string, target: string)
    requires text == "concatenate" && target == "cat"
    ensures !Leaks(text, target, [])
  {
    StripFixed(text);
    StripFixed(target);
    forall p: nat | p + 3 <= |text| ensures !WordAt(text, target, p) {
      if p == 3 {
        assert !Boundary(text, 3);
      } else {
        assert text[p..p + 3][0] == text[p] && text[p..p + 3][1] == text[p + 1] && text[p..p + 3][2] == text[p + 2];
      }
    }
    assert forall s :: s in [target] + [] ==> s == target;
  }
}
