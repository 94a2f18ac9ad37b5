/**
 * Python's `str.strip()` with no argument: remove leading and trailing
 * whitespace, where whitespace is what `str.isspace` accepts.
 */
module Text {

  /** The code points Python's `str.isspace` accepts. */
  predicate IsSpace(c: char) {
    var n := c as int;
    (0x09 <= n <= 0x0D) || (0x1C <= n <= 0x20) || n == 0x85 || n == 0xA0 || n == 0x1680
    || (0x2000 <= n <= 0x200A) || n == 0x2028 || n == 0x2029 || n == 0x202F || n == 0x205F
    || n == 0x3000
  }

  /**
   * Among ASCII characters, whitespace is tab, line feed, vertical tab, form
   * feed, carriage return, the four information separators and the space.
   */
  lemma IsSpaceAscii(c: char)
    requires c as int < 0x80
    ensures IsSpace(c) <==> c in "\t\n\U{000B}\U{000C}\r\U{001C}\U{001D}\U{001E}\U{001F} "
  {
  }

  predicate AllSpace(s: string) {
    forall i :: 0 <= i < |s| ==> IsSpace(s[i])
  }

  /** Length of the longest all-whitespace prefix. */
  function LeadingSpace(s: string): (n: nat)
    ensures n <= |s|
    ensures AllSpace(s[..n])
    ensures n < |s| ==> !IsSpace(s[n])
  {
    if |s| > 0 && IsSpace(s[0]) then
      var k := LeadingSpace(s[1..]);
      assert s[..k + 1] == [s[0]] + s[1..][..k];
      k + 1
    else 0
  }

  /** Length of the longest all-whitespace suffix. */
  function TrailingSpace(s: string): (n: nat)
    ensures n <= |s|
    ensures AllSpace(s[|s| - n..])
    ensures n < |s| ==> !IsSpace(s[|s| - 1 - n])
  {
    if |s| > 0 && IsSpace(s[|s| - 1]) then
      var p := s[..|s| - 1];
      var k := TrailingSpace(p);
      assert s[|s| - (k + 1)..] == p[|p| - k..] + [s[|s| - 1]];
      assert k + 1 < |s| ==> s[|s| - 1 - (k + 1)] == p[|p| - 1 - k];
      k + 1
    else 0
  }

  /** `s.strip()`. */
  function Strip(s: string): (r: string)
    ensures LeadingSpace(s) + |r| <= |s|
    ensures r == [] <==> AllSpace(s)
    ensures r != [] ==> !IsSpace(r[0]) && !IsSpace(r[|r| - 1])
    ensures forall i :: 0 <= i < |r| ==> r[i] == s[LeadingSpace(s) + i]
    ensures AllSpace(s[LeadingSpace(s) + |r|..])
  {
    var lo := LeadingSpace(s);
    if lo == |s| then
      assert s[..lo] == s;
      []
    else
      var hi := |s| - TrailingSpace(s);
      assert !AllSpace(s) by {
        assert !IsSpace(s[lo]);
      }
      s[lo..hi]
  }

  /**
   * Strip undoes padding: whitespace put around a string that neither starts
   * nor ends with whitespace is removed again, and nothing else is.
   */
  lemma {:induction false} StripPadded(pre: string, m: string, post: string)
    requires AllSpace(pre) && AllSpace(post)
    requires m != [] ==> !IsSpace(m[0]) && !IsSpace(m[|m| - 1])
    ensures Strip(pre + m + post) == m
  {
    var s := pre + m + post;
    if m == [] {
      assert AllSpace(s) by {
        forall i | 0 <= i < |s| ensures IsSpace(s[i]) {
          if i < |pre| { assert s[i] == pre[i]; } else { assert s[i] == post[i - |pre|]; }
        }
      }
    } else {
      LeadingSpaceOfPadded(pre, m, post);
      TrailingSpaceOfPadded(pre, m, post);
      assert s[|pre|..|pre| + |m|] == m;
    }
  }

  lemma {:induction false} LeadingSpaceOfPadded(pre: string, m: string, post: string)
    requires AllSpace(pre) && m != [] && !IsSpace(m[0])
    ensures LeadingSpace(pre + m + post) == |pre|
    decreases |pre|
  {
    var s := pre + m + post;
    if pre != [] {
      assert s[1..] == pre[1..] + m + post;
      LeadingSpaceOfPadded(pre[1..], m, post);
    } else {
      assert s[0] == m[0];
    }
  }

  lemma {:induction false} TrailingSpaceOfPadded(pre: string, m: string, post: string)
    requires AllSpace(post) && m != [] && !IsSpace(m[|m| - 1])
    ensures TrailingSpace(pre + m + post) == |post|
    decreases |post|
  {
    var s := pre + m + post;
    if post != [] {
      var q := post[..|post| - 1];
      assert s[..|s| - 1] == pre + m + q;
      assert s[|s| - 1] == post[|post| - 1];
      TrailingSpaceOfPadded(pre, m, q);
    } else {
      assert s[|s| - 1] == m[|m| - 1];
    }
  }

  /** Stripping twice is stripping once. */
  lemma StripIdempotent(s: string)
    ensures Strip(Strip(s)) == Strip(s)
  {
    var r := Strip(s);
    assert r == [] + r + [];
    StripPadded([], r, []);
  }
}
