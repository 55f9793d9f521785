/** The one piece of text handling the list page does: `String.prototype.trim`,
    applied to the add field (script.js:15) and to the inline editor (script.js:116). */
module Text {

  /** The characters ECMAScript's `trim` strips: WhiteSpace (TAB, VT, FF, ZWNBSP and
      every space separator) and LineTerminator (LF, CR, LS, PS). */
  predicate IsSpace(c: char) {
    || c == '\t' || c == '\n' || c == '\U{000B}' || c == '\U{000C}' || c == '\r'
    || c == ' ' || c == '\U{00A0}' || c == '\U{1680}'
    || ('\U{2000}' <= c <= '\U{200A}')
    || c == '\U{2028}' || c == '\U{2029}' || c == '\U{202F}' || c == '\U{205F}'
    || c == '\U{3000}' || c == '\U{FEFF}'
  }

  /** Every character of `s` is whitespace (the empty string included). */
  predicate AllSpace(s: string) {
    forall k :: 0 <= k < |s| ==> IsSpace(s[k])
  }

  /** No whitespace at either end. */
  predicate Trimmed(s: string) {
    s == [] || (!IsSpace(s[0]) && !IsSpace(s[|s| - 1]))
  }

  /** `String.prototype.trim`: whitespace is stripped from both ends until a
      non-space stands at each. The result has no whitespace at either end
      (TrimIsCore: it is the slice of `s` between leading and trailing whitespace). */
  function Trim(s: string): (r: string)
    ensures Trimmed(r)
    ensures |r| <= |s|
    decreases |s|
  {
    if s == [] then []
    else if IsSpace(s[0]) then Trim(s[1..])
    else if IsSpace(s[|s| - 1]) then Trim(s[..|s| - 1])
    else s
  }

  /** The number of whitespace characters `s` starts with. */
  function LeadingSpaces(s: string): (n: nat)
    ensures n <= |s|
  {
    if s != [] && IsSpace(s[0]) then 1 + LeadingSpaces(s[1..]) else 0
  }

  /** `s` is the string `r` with whitespace before it, `a` characters long, and
      whitespace after it. */
  predicate SplitsAt(s: string, a: nat, r: string) {
    && a + |r| <= |s|
    && s[a..a + |r|] == r
    && (forall k :: 0 <= k < a ==> IsSpace(s[k]))
    && (forall k :: a + |r| <= k < |s| ==> IsSpace(s[k]))
  }

  /** One more whitespace character in front moves the split one place right. */
  lemma SplitAfterLeadingSpace(s: string, a: nat, r: string)
    requires s != [] && IsSpace(s[0]) && SplitsAt(s[1..], a, r)
    ensures SplitsAt(s, a + 1, r)
  {
    var t := s[1..];
    assert s[a + 1..a + 1 + |r|] == t[a..a + |r|];
    forall k | 0 < k < |s| ensures s[k] == t[k - 1] { }
  }

  /** One more whitespace character at the end keeps the split. */
  lemma SplitBeforeTrailingSpace(s: string, a: nat, r: string)
    requires s != [] && IsSpace(s[|s| - 1]) && SplitsAt(s[..|s| - 1], a, r)
    ensures SplitsAt(s, a, r)
  {
    var t := s[..|s| - 1];
    assert s[a..a + |r|] == t[a..a + |r|];
    forall k | 0 <= k < |s| - 1 ensures s[k] == t[k] { }
  }

  /** `s` splits into its leading whitespace, `Trim(s)` and whitespace: the trim is
      the slice of `s` that remains once the whitespace at both ends is cut. */
  lemma {:induction false} TrimIsCore(s: string)
    ensures SplitsAt(s, LeadingSpaces(s), Trim(s))
    decreases |s|
  {
    if s == [] {
    } else if IsSpace(s[0]) {
      TrimIsCore(s[1..]);
      SplitAfterLeadingSpace(s, LeadingSpaces(s[1..]), Trim(s[1..]));
    } else if IsSpace(s[|s| - 1]) {
      var t := s[..|s| - 1];
      TrimIsCore(t);
      assert LeadingSpaces(t) == 0 by { assert t[0] == s[0]; }
      SplitBeforeTrailingSpace(s, 0, Trim(t));
    } else {
      assert s[0..|s|] == s;
    }
  }

  /** The trim is empty exactly when `s` is all whitespace: the test `!title`
      after `trim()` rejects exactly the blank inputs. */
  lemma {:induction false} TrimEmptyIffAllSpace(s: string)
    ensures Trim(s) == [] <==> AllSpace(s)
    decreases |s|
  {
    if s == [] {
    } else if IsSpace(s[0]) {
      TrimEmptyIffAllSpace(s[1..]);
      assert AllSpace(s) <==> AllSpace(s[1..]) by {
        if AllSpace(s[1..]) {
          forall k | 0 < k < |s| ensures IsSpace(s[k]) { assert s[k] == s[1..][k - 1]; }
        }
      }
    } else {
      assert !AllSpace(s);
      if IsSpace(s[|s| - 1]) {
        TrimEmptyIffAllSpace(s[..|s| - 1]);
        assert s[..|s| - 1][0] == s[0];
      }
    }
  }

  /** A string without whitespace at its ends is its own trim. */
  lemma TrimOfTrimmed(s: string)
    requires Trimmed(s)
    ensures Trim(s) == s
  {
  }

  /** Trimming twice is trimming once. */
  lemma TrimIdempotent(s: string)
    ensures Trim(Trim(s)) == Trim(s)
  {
    TrimOfTrimmed(Trim(s));
  }

  /** The converse of TrimIsCore: whatever whitespace surrounds a non-empty
      trimmed string, trimming gives that string back. */
  lemma {:induction false} TrimPadded(pre: string, core: string, post: string)
    requires AllSpace(pre) && AllSpace(post) && core != [] && Trimmed(core)
    ensures Trim(pre + core + post) == core
    decreases |pre| + |post|
  {
    var s := pre + core + post;
    if pre != [] {
      assert s[0] == pre[0];
      assert s[1..] == pre[1..] + core + post;
      TrimPadded(pre[1..], core, post);
    } else if post != [] {
      assert s[0] == core[0];
      assert s[|s| - 1] == post[|post| - 1];
      assert s[..|s| - 1] == pre + core + post[..|post| - 1];
      TrimPadded(pre, core, post[..|post| - 1]);
    } else {
      assert s == core;
    }
  }
}
