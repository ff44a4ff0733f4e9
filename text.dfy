/** The two string operations the submit handler applies to the entry text:
    Python's no-argument `str.strip()` and the reversing slice `s[::-1]`.
    Python strings are sequences of code points, so a string is a `seq<char>`. */
module Text {

  /** Python's `str.isspace` on one code point: the characters Python treats as
      whitespace (bidirectional class WS, B or S, or general category Zs). */
  predicate IsSpace(c: char) {
    var n := c as int;
    (0x09 <= n <= 0x0D) || (0x1C <= n <= 0x20) || n == 0x85 || n == 0xA0 ||
    n == 0x1680 || (0x2000 <= n <= 0x200A) || n == 0x2028 || n == 0x2029 ||
    n == 0x202F || n == 0x205F || n == 0x3000
  }

  /** Every character of `s` is whitespace (vacuously so for the empty string). */
  predicate AllSpace(s: string) {
    forall k :: 0 <= k < |s| ==> IsSpace(s[k])
  }

  /** Removes leading whitespace (Python's `lstrip()`). */
  function TrimStart(s: string): string {
    if s != [] && IsSpace(s[0]) then TrimStart(s[1..]) else s
  }

  /** TrimStart returns the suffix of `s` that starts at the first
      non-whitespace character, or the empty string if there is none. */
  lemma {:induction false} TrimStartSuffix(s: string)
    ensures var r := TrimStart(s);
      && |r| <= |s| && r == s[|s| - |r|..]
      && (forall k :: 0 <= k < |s| - |r| ==> IsSpace(s[k]))
      && (r != [] ==> !IsSpace(r[0]))
  {
    if s != [] && IsSpace(s[0]) {
      var t := s[1..];
      TrimStartSuffix(t);
      var r := TrimStart(t);
      assert TrimStart(s) == r;
      assert t[|t| - |r|..] == s[|s| - |r|..];
      forall k | 0 <= k < |s| - |r| ensures IsSpace(s[k]) {
        if k > 0 { assert s[k] == t[k - 1]; }
      }
    }
  }

  /** Removes trailing whitespace (Python's `rstrip()`). */
  function TrimEnd(s: string): string {
    if s != [] && IsSpace(s[|s| - 1]) then TrimEnd(s[..|s| - 1]) else s
  }

  /** TrimEnd returns the prefix of `s` that ends at the last non-whitespace
      character, or the empty string if there is none. */
  lemma {:induction false} TrimEndPrefix(s: string)
    ensures var r := TrimEnd(s);
      && |r| <= |s| && r == s[..|r|]
      && (forall k :: |r| <= k < |s| ==> IsSpace(s[k]))
      && (r != [] ==> !IsSpace(r[|r| - 1]))
  {
    if s != [] && IsSpace(s[|s| - 1]) {
      var t := s[..|s| - 1];
      TrimEndPrefix(t);
      var r := TrimEnd(t);
      assert TrimEnd(s) == r;
      assert t[..|r|] == s[..|r|];
      forall k | |r| <= k < |s| ensures IsSpace(s[k]) {
        if k < |t| { assert s[k] == t[k]; }
      }
    }
  }

  /** Python's `s.strip()` with no argument. */
  function Strip(s: string): (r: string)
    ensures |r| <= |s|
    ensures r == [] <==> AllSpace(s)
    ensures r != [] ==> !IsSpace(r[0]) && !IsSpace(r[|r| - 1])
  {
    TrimStartSuffix(s);
    TrimEndPrefix(TrimStart(s));
    TrimEnd(TrimStart(s))
  }

  /** Strip takes exactly the slice `s[i..j]` that has only whitespace before
      and after it and starts and ends with non-whitespace: the result is the
      contiguous middle of `s` and nothing else. */
  lemma StripBounds(s: string) returns (i: nat, j: nat)
    ensures i <= j <= |s| && Strip(s) == s[i..j]
    ensures forall k :: 0 <= k < i ==> IsSpace(s[k])
    ensures forall k :: j <= k < |s| ==> IsSpace(s[k])
  {
    var t := TrimStart(s);
    var r := TrimEnd(t);
    TrimStartSuffix(s);
    TrimEndPrefix(t);
    i := |s| - |t|;
    j := i + |r|;
    assert s[i..j] == r;
    forall k | j <= k < |s| ensures IsSpace(s[k]) {
      assert s[k] == t[k - i];
    }
  }

  /** Any slice `s[i..j]` surrounded by whitespace only, and starting and
      ending with non-whitespace when non-empty, is what Strip returns. */
  lemma StripUnique(s: string, i: nat, j: nat)
    requires i <= j <= |s|
    requires forall k :: 0 <= k < i ==> IsSpace(s[k])
    requires forall k :: j <= k < |s| ==> IsSpace(s[k])
    requires i < j ==> !IsSpace(s[i]) && !IsSpace(s[j - 1])
    ensures Strip(s) == s[i..j]
  {
    var i', j' := StripBounds(s);
    if i < j {
      // both slices start at the first and end at the last non-whitespace character
      assert Strip(s) != [];
      assert !IsSpace(s[i']) && !IsSpace(s[j' - 1]);
      assert i <= i';
      assert i' <= i;
      assert j' <= j;
      assert j <= j';
    }
  }

  /** Stripping twice is the same as stripping once. */
  lemma StripIdempotent(s: string)
    ensures Strip(Strip(s)) == Strip(s)
  {
    var t := Strip(s);
    StripUnique(t, 0, |t|);
  }

  /** Leading whitespace is skipped entirely. */
  lemma {:induction false} TrimStartSkipsSpace(pre: string, t: string)
    requires AllSpace(pre)
    ensures TrimStart(pre + t) == TrimStart(t)
  {
    if pre == [] {
      assert pre + t == t;
    } else {
      assert (pre + t)[0] == pre[0];
      assert (pre + t)[1..] == pre[1..] + t;
      assert AllSpace(pre[1..]) by {
        forall k | 0 <= k < |pre| - 1 ensures IsSpace(pre[1..][k]) {
          assert pre[1..][k] == pre[k + 1];
        }
      }
      TrimStartSkipsSpace(pre[1..], t);
    }
  }

  /** Once a non-whitespace character is found, what follows it is kept as is. */
  lemma {:induction false} TrimStartKeepsTail(s: string, post: string)
    requires TrimStart(s) != []
    ensures TrimStart(s + post) == TrimStart(s) + post
  {
    TrimStartSuffix(s);
    assert s != [];
    var u := s + post;
    assert u[0] == s[0];
    if IsSpace(s[0]) {
      assert u[1..] == s[1..] + post;
      TrimStartKeepsTail(s[1..], post);
    }
  }

  /** Trailing whitespace is skipped entirely. */
  lemma {:induction false} TrimEndSkipsSpace(t: string, post: string)
    requires AllSpace(post)
    ensures TrimEnd(t + post) == TrimEnd(t)
  {
    if post == [] {
      assert t + post == t;
    } else {
      var u := t + post;
      var post' := post[..|post| - 1];
      assert u[|u| - 1] == post[|post| - 1];
      assert u[..|u| - 1] == t + post';
      assert AllSpace(post') by {
        forall k | 0 <= k < |post'| ensures IsSpace(post'[k]) {
          assert post'[k] == post[k];
        }
      }
      TrimEndSkipsSpace(t, post');
    }
  }

  /** Whitespace added before or after a string does not change what Strip returns. */
  lemma StripPadded(pre: string, s: string, post: string)
    requires AllSpace(pre) && AllSpace(post)
    ensures Strip(pre + s + post) == Strip(s)
  {
    assert pre + s + post == pre + (s + post);
    TrimStartSkipsSpace(pre, s + post);
    if TrimStart(s) != [] {
      TrimStartKeepsTail(s, post);
      TrimEndSkipsSpace(TrimStart(s), post);
    } else {
      TrimStartSuffix(s);
      assert AllSpace(s + post) by {
        forall k | 0 <= k < |s + post| ensures IsSpace((s + post)[k]) {
          if k < |s| { assert (s + post)[k] == s[k]; } else { assert (s + post)[k] == post[k - |s|]; }
        }
      }
      TrimStartSkipsSpace(s + post, []);
      assert s + post + [] == s + post;
    }
  }

  /** Python's `s[::-1]`: a slice that starts at the last index and steps by
      -1, so character `k` of the result is character `|s| - 1 - k` of `s`. */
  function Reverse(s: string): (r: string)
    ensures |r| == |s|
  {
    seq(|s|, k requires 0 <= k < |s| => s[|s| - 1 - k])
  }

  /** Reversing a concatenation reverses the order of the parts: the first
      character of `s` ends up last. */
  lemma ReverseAppend(a: string, b: string)
    ensures Reverse(a + b) == Reverse(b) + Reverse(a)
  {
    var u := a + b;
    forall k | 0 <= k < |u| ensures Reverse(u)[k] == (Reverse(b) + Reverse(a))[k] {
      if k < |b| {
        assert u[|u| - 1 - k] == b[|b| - 1 - k];
      } else {
        assert u[|u| - 1 - k] == a[|a| - 1 - (k - |b|)];
      }
    }
  }

  /** `s[::-1]` on three sample entries, short and long. */
  lemma ReverseExamples()
    ensures Reverse("hello") == "olleh"
    ensures Reverse("tkinter") == "retnikt"
    ensures Reverse("abcdefghijk") == "kjihgfedcba"
  {
  }

  /** Reversing twice gives back the original string. */
  lemma ReverseInvolution(s: string)
    ensures Reverse(Reverse(s)) == s
  {
    var r := Reverse(s);
    forall k | 0 <= k < |s| ensures Reverse(r)[k] == s[k] {
      assert Reverse(r)[k] == r[|s| - 1 - k];
    }
  }

  /** Reversal is one-to-one: different strings have different reversals. */
  lemma ReverseInjective(s: string, t: string)
    requires Reverse(s) == Reverse(t)
    ensures s == t
  {
    ReverseInvolution(s);
    ReverseInvolution(t);
  }

  /** Reversal swaps the first and last characters, so a string with
      non-whitespace ends still has non-whitespace ends once reversed. */
  lemma ReverseKeepsTrimmed(s: string)
    requires s != [] ==> !IsSpace(s[0]) && !IsSpace(s[|s| - 1])
    ensures Reverse(s) != [] ==> !IsSpace(Reverse(s)[0]) && !IsSpace(Reverse(s)[|s| - 1])
  {
  }
}
