/** Searching and splitting strings, with the facts about them that the
    parsers need. */
module Strings {
  import opened Wrappers

  /** Index of the first `c` in `s`, or `|s|` when there is none. */
  function IndexOf(s: string, c: char): (i: nat)
    ensures i <= |s| && forall k :: 0 <= k < i ==> s[k] != c
    ensures i < |s| ==> s[i] == c
  {
    if s == [] || s[0] == c then 0 else 1 + IndexOf(s[1..], c)
  }

  /** Index of the last `c` in `s`, or -1 when there is none. */
  function LastIndexOf(s: string, c: char): (i: int)
    ensures -1 <= i < |s| && forall k :: i < k < |s| ==> s[k] != c
    ensures 0 <= i ==> s[i] == c
  {
    if s == [] then -1
    else if s[|s| - 1] == c then |s| - 1
    else LastIndexOf(s[..|s| - 1], c)
  }

  function StripPrefix(prefix: string, s: string): Option<string> {
    if prefix <= s then Some(s[|prefix|..]) else None
  }

  function StripSuffix(suffix: string, s: string): Option<string> {
    if |suffix| <= |s| && s[|s| - |suffix|..] == suffix then Some(s[..|s| - |suffix|]) else None
  }

  lemma SplitAt(s: string, n: nat)
    requires n <= |s|
    ensures s == s[..n] + s[n..]
  {
  }

  lemma StripPrefixSound(prefix: string, s: string)
    requires StripPrefix(prefix, s).Some?
    ensures s == prefix + StripPrefix(prefix, s).value
  {
    assert s == s[..|prefix|] + s[|prefix|..];
  }

  lemma StripSuffixSound(suffix: string, s: string)
    requires StripSuffix(suffix, s).Some?
    ensures s == StripSuffix(suffix, s).value + suffix
  {
    assert s == s[..|s| - |suffix|] + s[|s| - |suffix|..];
  }

  lemma StripPrefixConcat(prefix: string, s: string)
    ensures StripPrefix(prefix, prefix + s) == Some(s)
  {
    assert (prefix + s)[..|prefix|] == prefix;
    assert (prefix + s)[|prefix|..] == s;
  }

  lemma StripSuffixConcat(suffix: string, s: string)
    ensures StripSuffix(suffix, s + suffix) == Some(s)
  {
    assert (s + suffix)[|s|..] == suffix;
    assert (s + suffix)[..|s|] == s;
  }

  lemma IndexOfConcat(a: string, b: string, c: char)
    requires c !in a && b != [] && b[0] == c
    ensures IndexOf(a + b, c) == |a|
  {
    if a != [] {
      assert (a + b)[1..] == a[1..] + b;
      IndexOfConcat(a[1..], b, c);
    }
  }

  lemma LastIndexOfConcat(a: string, b: string, c: char)
    requires c !in b && a != [] && a[|a| - 1] == c
    ensures LastIndexOf(a + b, c) == |a| - 1
  {
    if b != [] {
      assert (a + b)[..|a + b| - 1] == a + b[..|b| - 1];
      LastIndexOfConcat(a, b[..|b| - 1], c);
    }
  }

  lemma Reassemble(whole: string, a: string, rest: string, b: string, c: string)
    requires whole == a + rest && rest == b + c
    ensures whole == a + b + c
  {
  }
}
