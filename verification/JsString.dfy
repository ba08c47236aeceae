/** The three JavaScript string built-ins the classifier relies on:
    `String.prototype.toLowerCase`, `String.prototype.trim` and
    `String.prototype.includes`, over strings as sequences of characters. */
module JsString {

  // ---------------------------------------------------------------------
  // toLowerCase
  // ---------------------------------------------------------------------

  /** The upper-case letters the model lower-cases: ASCII A-Z and the
      upper-case letters of Latin-1 (U+00C0..U+00DE except the
      multiplication sign U+00D7), where the accented capitals of
      Portuguese live (Ç, Í, Á, Ã, ...). */
  predicate IsUpper(c: char) {
    ('A' <= c <= 'Z') || ('\U{00C0}' <= c <= '\U{00DE}' && c != '\U{00D7}')
  }

  /** Lower-case mapping of one character: each upper-case letter above
      maps to the code point 32 above it, its small letter; every other
      character is left as it is. */
  function LowerChar(c: char): (d: char)
    ensures IsUpper(c) ==> d as int == c as int + 32 && !IsUpper(d)
    ensures !IsUpper(c) ==> d == c
  {
    if IsUpper(c) then (c as int + 32) as char else c
  }

  /** `s.toLowerCase()`, character by character. */
  function ToLower(s: string): (r: string)
    ensures |r| == |s|
    ensures forall i :: 0 <= i < |s| ==>
      && !IsUpper(r[i])
      && (IsUpper(s[i]) ==> r[i] as int == s[i] as int + 32)
      && (!IsUpper(s[i]) ==> r[i] == s[i])
  {
    seq(|s|, i requires 0 <= i < |s| => LowerChar(s[i]))
  }

  lemma ToLowerConcat(a: string, b: string)
    ensures ToLower(a + b) == ToLower(a) + ToLower(b)
  {
  }

  lemma ToLowerSlice(s: string, a: nat, b: nat)
    requires a <= b <= |s|
    ensures ToLower(s)[a..b] == ToLower(s[a..b])
  {
  }

  /** Lower-casing twice is lower-casing once. */
  lemma ToLowerIdempotent(s: string)
    ensures ToLower(ToLower(s)) == ToLower(s)
  {
  }

  /** A text without upper-case letters is left as it is. */
  lemma ToLowerFixes(s: string)
    requires forall i :: 0 <= i < |s| ==> !IsUpper(s[i])
    ensures ToLower(s) == s
  {
  }

  // ---------------------------------------------------------------------
  // trim
  // ---------------------------------------------------------------------

  /** The characters `String.prototype.trim` removes: the ECMAScript
      WhiteSpace production (TAB, VT, FF, SPACE, NBSP, ZWNBSP and every
      character of Unicode category Zs) and the LineTerminator production
      (LF, CR, LS, PS). None of them is an upper-case letter. */
  predicate IsWhitespace(c: char)
    ensures IsWhitespace(c) ==> !IsUpper(c)
  {
    || c == '\t' || c == '\n' || c == '\U{000B}' || c == '\U{000C}' || c == '\r'
    || c == ' ' || c == '\U{00A0}' || c == '\U{1680}'
    || ('\U{2000}' <= c <= '\U{200A}')
    || c == '\U{2028}' || c == '\U{2029}' || c == '\U{202F}' || c == '\U{205F}'
    || c == '\U{3000}' || c == '\U{FEFF}'
  }

  ghost predicate AllWhitespace(w: string) {
    forall i :: 0 <= i < |w| ==> IsWhitespace(w[i])
  }

  /** A string that `trim` leaves alone: empty, or with a visible first and
      last character. */
  predicate Trimmed(t: string) {
    t == [] || (!IsWhitespace(t[0]) && !IsWhitespace(t[|t| - 1]))
  }

  /** The first index, from `i` on, whose character is not whitespace
      (or `|s|` if there is none). */
  function SkipForward(s: string, i: nat): (j: nat)
    requires i <= |s|
    ensures i <= j <= |s|
    decreases |s| - i
  {
    if i < |s| && IsWhitespace(s[i]) then SkipForward(s, i + 1) else i
  }

  /** The end of `s[lo..hi]` once its trailing whitespace is dropped. */
  function SkipBackward(s: string, lo: nat, hi: nat): (j: nat)
    requires lo <= hi <= |s|
    ensures lo <= j <= hi
    decreases hi
  {
    if lo < hi && IsWhitespace(s[hi - 1]) then SkipBackward(s, lo, hi - 1) else hi
  }

  /** `s.trim()`: leading whitespace dropped, then trailing whitespace. */
  function Trim(s: string): (t: string)
    ensures |t| <= |s|
  {
    var start := SkipForward(s, 0);
    s[start..SkipBackward(s, start, |s|)]
  }

  /** `SkipForward` stops exactly at the first visible character. */
  lemma {:induction false} SkipForwardStops(s: string, i: nat)
    requires i <= |s|
    ensures forall k :: i <= k < SkipForward(s, i) ==> IsWhitespace(s[k])
    ensures SkipForward(s, i) < |s| ==> !IsWhitespace(s[SkipForward(s, i)])
    decreases |s| - i
  {
    if i < |s| && IsWhitespace(s[i]) {
      SkipForwardStops(s, i + 1);
    }
  }

  /** `SkipBackward` stops exactly after the last visible character. */
  lemma {:induction false} SkipBackwardStops(s: string, lo: nat, hi: nat)
    requires lo <= hi <= |s|
    ensures forall k :: SkipBackward(s, lo, hi) <= k < hi ==> IsWhitespace(s[k])
    ensures SkipBackward(s, lo, hi) > lo ==> !IsWhitespace(s[SkipBackward(s, lo, hi) - 1])
    decreases hi
  {
    if lo < hi && IsWhitespace(s[hi - 1]) {
      SkipBackwardStops(s, lo, hi - 1);
    }
  }

  /** Where `SkipForward` lands is determined by the characters alone: any
      `j` with only whitespace before it and a visible character (or the
      end) at it is the answer. */
  lemma {:induction false} SkipForwardAt(s: string, i: nat, j: nat)
    requires i <= j <= |s|
    requires forall k :: i <= k < j ==> IsWhitespace(s[k])
    requires j < |s| ==> !IsWhitespace(s[j])
    ensures SkipForward(s, i) == j
    decreases j - i
  {
    if i < j {
      SkipForwardAt(s, i + 1, j);
    }
  }

  /** The same for `SkipBackward`. */
  lemma {:induction false} SkipBackwardAt(s: string, lo: nat, hi: nat, j: nat)
    requires lo <= j <= hi <= |s|
    requires forall k :: j <= k < hi ==> IsWhitespace(s[k])
    requires j > lo ==> !IsWhitespace(s[j - 1])
    ensures SkipBackward(s, lo, hi) == j
    decreases hi - j
  {
    if j < hi {
      SkipBackwardAt(s, lo, hi - 1, j);
    }
  }

  /** What `trim` returns: a `Trimmed` middle part of `s` with only
      whitespace on either side of it. */
  lemma TrimShape(s: string) returns (a: nat, b: nat)
    ensures a <= b <= |s| && Trim(s) == s[a..b]
    ensures Trimmed(Trim(s))
    ensures a < |s| ==> !IsWhitespace(s[a])
    ensures forall k :: 0 <= k < a ==> IsWhitespace(s[k])
    ensures forall k :: b <= k < |s| ==> IsWhitespace(s[k])
  {
    a := SkipForward(s, 0);
    b := SkipBackward(s, a, |s|);
    SkipForwardStops(s, 0);
    SkipBackwardStops(s, a, |s|);
  }

  /** `trim` is characterised by its result: whatever whitespace surrounds
      a `Trimmed` string, trimming gives back exactly that string. */
  lemma TrimUnique(w1: string, t: string, w2: string)
    requires AllWhitespace(w1) && AllWhitespace(w2) && Trimmed(t)
    ensures Trim(w1 + t + w2) == t
  {
    var s := w1 + t + w2;
    var a, b := |w1|, |w1| + |t|;
    if t == [] {
      SkipForwardAt(s, 0, |s|);
      SkipBackwardAt(s, |s|, |s|, |s|);
    } else {
      SkipForwardAt(s, 0, a);
      SkipBackwardAt(s, a, |s|, b);
      assert s[a..b] == t;
    }
  }

  lemma TrimIdempotent(s: string)
    ensures Trim(Trim(s)) == Trim(s)
  {
    var t := Trim(s);
    var _, _ := TrimShape(s);
    assert [] + t + [] == t;
    TrimUnique([], t, []);
  }

  /** Whitespace added around a string is trimmed away with the string's
      own. */
  lemma TrimIgnoresPadding(w1: string, s: string, w2: string)
    requires AllWhitespace(w1) && AllWhitespace(w2)
    ensures Trim(w1 + s + w2) == Trim(s)
  {
    var a, b := TrimShape(s);
    var t := s[a..b];
    var u1, u2 := w1 + s[..a], s[b..] + w2;
    assert w1 + s + w2 == u1 + t + u2 by {
      assert s == s[..a] + t + s[b..];
    }
    assert AllWhitespace(u1) by {
      assert forall k :: 0 <= k < |u1| ==> u1[k] == if k < |w1| then w1[k] else s[k - |w1|];
    }
    assert AllWhitespace(u2) by {
      assert forall k :: 0 <= k < |u2| ==> u2[k] == if k < |s| - b then s[b + k] else w2[k - (|s| - b)];
    }
    TrimUnique(u1, t, u2);
  }

  /** Lower-casing neither creates nor removes whitespace. */
  lemma LowerKeepsWhitespace(c: char)
    ensures IsWhitespace(LowerChar(c)) <==> IsWhitespace(c)
  {
  }

  /** Lower-casing and trimming commute. */
  lemma TrimToLower(s: string)
    ensures Trim(ToLower(s)) == ToLower(Trim(s))
  {
    var low := ToLower(s);
    var a, b := TrimShape(s);
    forall k | 0 <= k < |s|
      ensures IsWhitespace(low[k]) <==> IsWhitespace(s[k])
    {
      LowerKeepsWhitespace(s[k]);
    }
    SkipForwardAt(low, 0, a);
    SkipBackwardAt(low, a, |s|, b);
    ToLowerSlice(s, a, b);
  }

  // ---------------------------------------------------------------------
  // includes
  // ---------------------------------------------------------------------

  /** `k` occurs in `s` starting at index `i`. */
  predicate OccursAt(s: string, k: string, i: nat) {
    i + |k| <= |s| && s[i..i + |k|] == k
  }

  /** `s.includes(k)`: `k` occurs in `s` at some position. */
  predicate Includes(s: string, k: string)
    ensures Includes(s, k) ==> |k| <= |s|
  {
    exists i: nat :: i <= |s| && OccursAt(s, k, i)
  }

  /** The same search done the way an implementation does it: try each
      start position of `s` from left to right. */
  function IncludesScan(s: string, k: string): (b: bool)
    ensures b ==> |k| <= |s|
    decreases |s|
  {
    if |k| > |s| then false
    else k == s[..|k|] || IncludesScan(s[1..], k)
  }

  /** The left-to-right scan finds `k` exactly when `k` occurs in `s`. */
  lemma {:induction false} ScanFindsOccurrence(s: string, k: string)
    ensures IncludesScan(s, k) <==> Includes(s, k)
    decreases |s|
  {
    if |k| > |s| {
    } else if k == s[..|k|] {
      assert OccursAt(s, k, 0);
    } else {
      ScanFindsOccurrence(s[1..], k);
      if Includes(s[1..], k) {
        var i: nat :| i <= |s[1..]| && OccursAt(s[1..], k, i);
        assert s[1..][i..i + |k|] == s[i + 1..i + 1 + |k|];
        assert OccursAt(s, k, i + 1);
      }
      if Includes(s, k) {
        var i: nat :| i <= |s| && OccursAt(s, k, i);
        assert i != 0;
        assert s[1..][i - 1..i - 1 + |k|] == s[i..i + |k|];
        assert OccursAt(s[1..], k, i - 1);
      }
    }
  }

  /** A keyword placed anywhere in a text is found there. */
  lemma IncludesInConcat(a: string, k: string, b: string)
    ensures Includes(a + k + b, k)
  {
    assert OccursAt(a + k + b, k, |a|) by {
      assert (a + k + b)[|a|..|a| + |k|] == k;
    }
  }

  /** A text without some character of a keyword cannot include it. */
  lemma NotIncludedByChar(s: string, k: string, c: char)
    requires c in k && c !in s
    ensures !Includes(s, k)
  {
  }

  /** A keyword that repeats some character cannot occur in a text that
      holds that character at one position `p` at most. */
  lemma NotIncludedByRepeat(s: string, k: string, c: char, p: nat, j1: nat, j2: nat)
    requires forall a :: 0 <= a < |s| && s[a] == c ==> a == p
    requires j1 < j2 < |k| && k[j1] == c && k[j2] == c
    ensures !Includes(s, k)
  {
  }
}
