/**
 * The key under which two task texts are compared: the text upper-cased and
 * then trimmed of surrounding white space (`toUpperCase().trim()`).
 *
 * Upper-casing is modelled on ASCII letters only; every other character is
 * left as it is.  Trimming strips exactly the WhiteSpace and LineTerminator
 * code points of ECMA-262 (sections 12.2 and 12.3), as
 * `String.prototype.trim` does.
 *
 * The functions carry small contracts only; what they mean is stated by the
 * lemmas below them, so that clients comparing keys do not pay for it.
 */
module Normalization {

  /** A WhiteSpace or LineTerminator code point of ECMA-262. */
  predicate IsJsWhitespace(c: char) {
    var n := c as int;
    n == 0x09 || n == 0x0A || n == 0x0B || n == 0x0C || n == 0x0D ||
    n == 0x20 || n == 0xA0 || n == 0x1680 || (0x2000 <= n <= 0x200A) ||
    n == 0x2028 || n == 0x2029 || n == 0x202F || n == 0x205F ||
    n == 0x3000 || n == 0xFEFF
  }

  predicate AllWhitespace(s: string) {
    forall k :: 0 <= k < |s| ==> IsJsWhitespace(s[k])
  }

  predicate IsLowerAscii(c: char) {
    'a' <= c <= 'z'
  }

  predicate NoLowerAscii(s: string) {
    forall k :: 0 <= k < |s| ==> !IsLowerAscii(s[k])
  }

  /** A string that `trim` leaves as it is: empty, or no white space at either end. */
  predicate IsTrimmed(s: string) {
    s == [] || (!IsJsWhitespace(s[0]) && !IsJsWhitespace(s[|s| - 1]))
  }

  /** `toUpperCase` on one character: ASCII letters only. */
  function UpperChar(c: char): (u: char)
    ensures !IsLowerAscii(u)
    ensures !IsLowerAscii(c) ==> u == c
    ensures IsJsWhitespace(u) <==> IsJsWhitespace(c)
  {
    if IsLowerAscii(c) then (c as int - 32) as char else c
  }

  /** `toUpperCase`, restricted to ASCII letters. */
  function Upper(s: string): (r: string)
    ensures |r| == |s|
  {
    if s == [] then [] else [UpperChar(s[0])] + Upper(s[1..])
  }

  /**
   * Where the scan from the front that `trim` makes stops: the first index
   * at or after `i` that does not hold white space, or |s|.
   */
  function TrimStartIndex(s: string, i: nat): (j: nat)
    requires i <= |s|
    ensures i <= j <= |s|
    ensures j < |s| ==> !IsJsWhitespace(s[j])
    decreases |s| - i
  {
    if i < |s| && IsJsWhitespace(s[i]) then TrimStartIndex(s, i + 1) else i
  }

  /**
   * Where the scan from the back stops, going down from `hi` but not below
   * `lo`: the end of the last character in s[lo..hi] that is not white space.
   */
  function TrimEndIndex(s: string, lo: nat, hi: nat): (j: nat)
    requires lo <= hi <= |s|
    ensures lo <= j <= hi
    ensures j > lo ==> !IsJsWhitespace(s[j - 1])
    decreases hi
  {
    if hi > lo && IsJsWhitespace(s[hi - 1]) then TrimEndIndex(s, lo, hi - 1) else hi
  }

  /** `trim`: the text between the two scans (see TrimParts and TrimExact). */
  function Trim(s: string): (r: string)
    ensures |r| <= |s|
    ensures IsTrimmed(r)
  {
    var a := TrimStartIndex(s, 0);
    s[a..TrimEndIndex(s, a, |s|)]
  }

  /** The comparison key `toUpperCase().trim()`. */
  function Normalize(s: string): (r: string)
    ensures IsTrimmed(r)
  {
    Trim(Upper(s))
  }

  /** Upper-casing works character by character. */
  lemma {:induction false} UpperChars(s: string)
    ensures forall k :: 0 <= k < |s| ==> Upper(s)[k] == UpperChar(s[k])
  {
    if s != [] {
      UpperChars(s[1..]);
      assert forall k :: 1 <= k < |s| ==> Upper(s)[k] == Upper(s[1..])[k - 1];
    }
  }

  lemma UpperAppend(a: string, b: string)
    ensures Upper(a + b) == Upper(a) + Upper(b)
  {
    UpperChars(a);
    UpperChars(b);
    UpperChars(a + b);
  }

  /** Upper-cased text holds no lower-case ASCII letter. */
  lemma {:induction false} UpperHasNoLower(s: string)
    ensures NoLowerAscii(Upper(s))
  {
    UpperChars(s);
  }

  /** Upper-casing leaves text without lower-case ASCII letters as it is. */
  lemma {:induction false} UpperKeepsUpper(s: string)
    requires NoLowerAscii(s)
    ensures Upper(s) == s
  {
    UpperChars(s);
  }

  /** The scan from the front passes over white space only. */
  lemma {:induction false} TrimStartIndexSpan(s: string, i: nat)
    requires i <= |s|
    ensures AllWhitespace(s[i..TrimStartIndex(s, i)])
    decreases |s| - i
  {
    if i < |s| && IsJsWhitespace(s[i]) {
      TrimStartIndexSpan(s, i + 1);
      var j := TrimStartIndex(s, i);
      assert s[i..j] == [s[i]] + s[i + 1..j];
    }
  }

  /** The scan from the back passes over white space only. */
  lemma {:induction false} TrimEndIndexSpan(s: string, lo: nat, hi: nat)
    requires lo <= hi <= |s|
    ensures AllWhitespace(s[TrimEndIndex(s, lo, hi)..hi])
    decreases hi
  {
    if hi > lo && IsJsWhitespace(s[hi - 1]) {
      TrimEndIndexSpan(s, lo, hi - 1);
      var j := TrimEndIndex(s, lo, hi);
      assert s[j..hi] == s[j..hi - 1] + [s[hi - 1]];
    }
  }

  /** The scan from the front stops exactly at the end of a white-space run. */
  lemma {:induction false} TrimStartIndexAt(s: string, i: nat, k: nat)
    requires i <= k <= |s|
    requires AllWhitespace(s[i..k])
    requires k == |s| || !IsJsWhitespace(s[k])
    ensures TrimStartIndex(s, i) == k
    decreases k - i
  {
    if i < k {
      assert s[i..k][0] == s[i];
      assert s[i + 1..k] == s[i..k][1..];
      TrimStartIndexAt(s, i + 1, k);
    }
  }

  /** The scan from the back stops exactly at the start of a white-space run. */
  lemma {:induction false} TrimEndIndexAt(s: string, lo: nat, hi: nat, k: nat)
    requires lo <= k <= hi <= |s|
    requires AllWhitespace(s[k..hi])
    requires k == lo || !IsJsWhitespace(s[k - 1])
    ensures TrimEndIndex(s, lo, hi) == k
    decreases hi - k
  {
    if k < hi {
      assert s[k..hi][hi - 1 - k] == s[hi - 1];
      assert s[k..hi - 1] == s[k..hi][..hi - 1 - k];
      TrimEndIndexAt(s, lo, hi - 1, k);
    }
  }

  /**
   * `trim` removes white space from both ends and nothing else, and what it
   * returns has no white space at either end.
   */
  lemma TrimParts(s: string) returns (lead: string, trail: string)
    ensures s == lead + Trim(s) + trail
    ensures AllWhitespace(lead) && AllWhitespace(trail)
    ensures IsTrimmed(Trim(s))
  {
    var a := TrimStartIndex(s, 0);
    var e := TrimEndIndex(s, a, |s|);
    TrimStartIndexSpan(s, 0);
    TrimEndIndexSpan(s, a, |s|);
    lead, trail := s[..a], s[e..];
    assert s[0..a] == lead;
    assert s[e..|s|] == trail;
    assert s == lead + s[a..e] + trail;
  }

  /**
   * `trim` is determined by what it returns: a trimmed string surrounded by
   * white space trims to exactly that string.
   */
  lemma TrimExact(pre: string, r: string, post: string)
    requires AllWhitespace(pre) && AllWhitespace(post) && IsTrimmed(r)
    ensures Trim(pre + r + post) == r
  {
    var s := pre + r + post;
    var b := |pre| + |r|;
    assert s[b..] == post;
    if r == [] {
      assert s[0..|s|] == s;
      TrimStartIndexAt(s, 0, |s|);
      assert s[|s|..|s|] == [];
      TrimEndIndexAt(s, |s|, |s|, |s|);
    } else {
      assert s[0..|pre|] == pre;
      assert s[|pre|] == r[0];
      TrimStartIndexAt(s, 0, |pre|);
      assert s[b..|s|] == post;
      assert s[b - 1] == r[|r| - 1];
      TrimEndIndexAt(s, |pre|, |s|, b);
      assert s[|pre|..b] == r;
    }
  }

  /** White space added around a text does not change what `trim` returns. */
  lemma TrimIgnoresSurroundingWhitespace(pre: string, s: string, post: string)
    requires AllWhitespace(pre) && AllWhitespace(post)
    ensures Trim(pre + s + post) == Trim(s)
  {
    var r := Trim(s);
    var lead, trail := TrimParts(s);
    var front, back := pre + lead, trail + post;
    assert pre + s + post == front + r + back by {
      assert s == lead + r + trail;
    }
    assert AllWhitespace(front) by {
      assert forall k :: 0 <= k < |front| ==> front[k] == if k < |pre| then pre[k] else lead[k - |pre|];
    }
    assert AllWhitespace(back) by {
      assert forall k :: 0 <= k < |back| ==> back[k] == if k < |trail| then trail[k] else post[k - |trail|];
    }
    TrimExact(front, r, back);
  }

  /** Upper-casing a string split in three around a middle part. */
  lemma UpperAround(pre: string, s: string, post: string)
    requires AllWhitespace(pre) && AllWhitespace(post)
    ensures Upper(pre + s + post) == pre + Upper(s) + post
  {
    UpperAppend(pre + s, post);
    UpperAppend(pre, s);
    assert NoLowerAscii(pre) && NoLowerAscii(post);
    UpperKeepsUpper(pre);
    UpperKeepsUpper(post);
  }

  /**
   * A comparison key has no white space at either end and no lower-case
   * ASCII letter.
   */
  lemma NormalizeShape(s: string)
    ensures IsTrimmed(Normalize(s))
    ensures NoLowerAscii(Normalize(s))
  {
    var u := Upper(s);
    UpperHasNoLower(s);
    var lead, trail := TrimParts(u);
    var r := Trim(u);
    forall k | 0 <= k < |r|
      ensures !IsLowerAscii(r[k])
    {
      assert r[k] == u[|lead| + k];
    }
  }

  /** Normalizing is idempotent: a comparison key is its own key. */
  lemma NormalizeIdempotent(s: string)
    ensures Normalize(Normalize(s)) == Normalize(s)
  {
    var n := Normalize(s);
    NormalizeShape(s);
    UpperKeepsUpper(n);
    TrimExact([], n, []);
    assert [] + n + [] == n;
  }

  /** Surrounding white space on either side never changes the key. */
  lemma NormalizeIgnoresSurroundingWhitespace(pre: string, s: string, post: string)
    requires AllWhitespace(pre) && AllWhitespace(post)
    ensures Normalize(pre + s + post) == Normalize(s)
  {
    UpperAround(pre, s, post);
    TrimIgnoresSurroundingWhitespace(pre, Upper(s), post);
  }

  /** Two texts that differ only in the case of ASCII letters share a key. */
  lemma NormalizeIgnoresCase(s: string, t: string)
    requires |s| == |t|
    requires forall k :: 0 <= k < |s| ==> UpperChar(s[k]) == UpperChar(t[k])
    ensures Normalize(s) == Normalize(t)
  {
    UpperChars(s);
    UpperChars(t);
    assert Upper(s) == Upper(t);
  }

  /**
   * On this model the order of the two steps does not matter: trimming and
   * then upper-casing gives the same key.
   */
  lemma NormalizeTrimFirst(s: string)
    ensures Normalize(s) == Upper(Trim(s))
  {
    var r := Trim(s);
    var lead, trail := TrimParts(s);
    UpperAround(lead, r, trail);
    UpperChars(r);
    assert IsTrimmed(Upper(r));
    TrimExact(lead, Upper(r), trail);
  }
}
