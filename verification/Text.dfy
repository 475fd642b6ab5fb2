/** The string functions of the Go standard library that the plugin relies on. */
module Text {

  // ----- Letter case

  /** strings.ToLower, as far as it can produce an ASCII letter: U+0130 lowers to 'i', and
      U+212A to 'k'. */
  function Lower(s: string): (r: string)
    ensures |r| == |s|
  {
    seq(|s|, i requires 0 <= i < |s| =>
      if 'A' <= s[i] <= 'Z' then s[i] + 32 as char else if s[i] as int == 0x130 then 'i' else if s[i] as int == 0x212A then 'k' else s[i])
  }

  /** strings.EqualFold against a word without the letters k and s, where folding is ASCII folding. */
  predicate EqualFold(s: string, word: string) {
    |s| == |word| && forall i :: 0 <= i < |s| ==> s[i] == word[i] || ('A' <= s[i] <= 'Z' && s[i] + 32 as char == word[i])
  }

  /** But for the two characters that lower to an ASCII letter without folding to it, both ways of
      ignoring case agree. */
  lemma FoldIsLower(s: string, word: string)
    requires forall k :: 0 <= k < |word| ==> 'a' <= word[k] <= 'z'
    requires forall k :: 0 <= k < |s| ==> s[k] as int != 0x130 && s[k] as int != 0x212A
    ensures EqualFold(s, word) <==> Lower(s) == word
  {
    if |s| == |word| {
      assert Lower(s) == word <==> forall k :: 0 <= k < |s| ==> Lower(s)[k] == word[k];
      assert forall k :: 0 <= k < |s| ==>
        (Lower(s)[k] == word[k] <==> s[k] == word[k] || ('A' <= s[k] <= 'Z' && s[k] + 32 as char == word[k]));
    }
  }

  // ----- Searching

  predicate HasPrefix(s: string, p: string) {
    p <= s
  }

  predicate HasSuffix(s: string, p: string) {
    |p| <= |s| && s[|s| - |p|..] == p
  }

  /** strings.Index of one character: the first position, or the length when it is absent. */
  function IndexOf(s: string, c: char): (i: nat)
    ensures i <= |s| && (i < |s| <==> c in s)
    ensures i < |s| ==> s[i] == c
    ensures c !in s[..i]
  {
    if s == [] || s[0] == c then 0
    else
      var i := IndexOf(s[1..], c);
      assert s[..i + 1] == [s[0]] + s[1..][..i];
      i + 1
  }

  lemma {:induction false} IndexOfFirst(a: string, c: char, b: string)
    requires c !in a
    ensures IndexOf(a + [c] + b, c) == |a|
  {
    if a != [] {
      IndexOfFirst(a[1..], c, b);
      assert (a + [c] + b)[1..] == a[1..] + [c] + b;
    }
  }

  // ----- Trimming

  /** unicode.IsSpace. */
  predicate IsSpace(c: char) {
    var n := c as int;
    || 0x09 <= n <= 0x0D || n in {0x20, 0x85, 0xA0, 0x1680, 0x2028, 0x2029, 0x202F, 0x205F, 0x3000}
    || 0x2000 <= n <= 0x200A
  }

  function TrimLeft(s: string, cut: char -> bool): (r: string)
    ensures |r| <= |s| && r == s[|s| - |r|..]
    ensures r == [] || !cut(r[0])
  {
    if s != [] && cut(s[0]) then TrimLeft(s[1..], cut) else s
  }

  function TrimRight(s: string, cut: char -> bool): (r: string)
    ensures r <= s
    ensures r == [] || !cut(r[|r| - 1])
  {
    if s != [] && cut(s[|s| - 1]) then TrimRight(s[..|s| - 1], cut) else s
  }

  function TrimSpace(s: string): (r: string) {
    TrimRight(TrimLeft(s, IsSpace), IsSpace)
  }

  predicate Blank(s: string) {
    forall k :: 0 <= k < |s| ==> IsSpace(s[k])
  }

  lemma {:induction false} TrimLeftPad(l: string, s: string)
    requires Blank(l)
    ensures TrimLeft(l + s, IsSpace) == TrimLeft(s, IsSpace)
  {
    hide IsSpace;
    if l == "" {
      assert l + s == s;
    } else {
      assert (l + s)[0] == l[0] && (l + s)[1..] == l[1..] + s;
      TrimLeftPad(l[1..], s);
    }
  }

  lemma {:induction false} TrimRightPad(s: string, r: string)
    requires Blank(r)
    ensures TrimRight(s + r, IsSpace) == TrimRight(s, IsSpace)
  {
    hide IsSpace;
    if r == "" {
      assert s + r == s;
    } else {
      var n := |r| - 1;
      assert (s + r)[|s + r| - 1] == r[n] && (s + r)[..|s + r| - 1] == s + r[..n];
      TrimRightPad(s, r[..n]);
    }
  }

  lemma {:induction false} TrimLeftFront(s: string, r: string)
    requires Blank(r)
    ensures TrimLeft(s + r, IsSpace) == if TrimLeft(s, IsSpace) == "" then "" else TrimLeft(s, IsSpace) + r
  {
    hide IsSpace;
    if s == "" {
      TrimLeftPad(r, "");
      assert s + r == r + "" == r;
    } else {
      assert (s + r)[0] == s[0] && (s + r)[1..] == s[1..] + r;
      TrimLeftFront(s[1..], r);
    }
  }

  /** Surrounding white space does not matter. */
  lemma TrimPad(l: string, s: string, r: string)
    requires Blank(l) && Blank(r)
    ensures TrimSpace(l + s + r) == TrimSpace(s)
  {
    hide *;
    assert l + s + r == l + (s + r);
    TrimLeftPad(l, s + r);
    TrimLeftFront(s, r);
    TrimmedPad(l + s + r, s, r);
  }

  lemma TrimmedPad(padded: string, s: string, r: string)
    requires Blank(r)
    requires TrimLeft(padded, IsSpace) == if TrimLeft(s, IsSpace) == "" then "" else TrimLeft(s, IsSpace) + r
    ensures TrimSpace(padded) == TrimSpace(s)
  {
    hide IsSpace, Blank, TrimLeft;
    TrimRightPad(TrimLeft(s, IsSpace), r);
  }

  predicate NoEdgeSpace(s: string) {
    s != [] ==> !IsSpace(s[0]) && !IsSpace(s[|s| - 1])
  }

  // ----- Splitting and joining

  function Split(s: string, sep: char): (parts: seq<string>)
    ensures |parts| > 0
    decreases |s|
  {
    var i := IndexOf(s, sep);
    if i == |s| then [s] else [s[..i]] + Split(s[i + 1..], sep)
  }

  function Join(parts: seq<string>, sep: char): string {
    if parts == [] then "" else if |parts| == 1 then parts[0] else parts[0] + [sep] + Join(parts[1..], sep)
  }

  /** Splitting undoes joining parts that do not hold the separator. */
  lemma {:induction false} SplitJoin(parts: seq<string>, sep: char)
    requires parts != []
    requires forall k :: 0 <= k < |parts| ==> sep !in parts[k]
    ensures Split(Join(parts, sep), sep) == parts
  {
    hide IndexOf;
    if |parts| == 1 {
      assert IndexOf(parts[0], sep) == |parts[0]|;
    } else {
      var rest := Join(parts[1..], sep);
      IndexOfFirst(parts[0], sep, rest);
      var s := parts[0] + [sep] + rest;
      assert s[..|parts[0]|] == parts[0] && s[|parts[0]| + 1..] == rest;
      SplitJoin(parts[1..], sep);
    }
  }
}
