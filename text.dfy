/** Python string primitives the plugin relies on: `str.strip()` and `str.replace(a, b)`. */
module Text {

  /** The characters Python's `str.isspace()` accepts from Python 3.4 on, which `str.strip()` removes. */
  predicate IsSpace(c: char)
  {
    c == ' ' || ('\t' <= c <= '\r') || ('\U{1C}' <= c <= '\U{1F}') ||
    c == '\U{85}' || c == '\U{A0}' || c == '\U{1680}' || ('\U{2000}' <= c <= '\U{200A}') ||
    c == '\U{2028}' || c == '\U{2029}' || c == '\U{202F}' || c == '\U{205F}' || c == '\U{3000}'
  }

  /** `s.lstrip()`: drops the leading whitespace and nothing else. */
  function StripLeft(s: string): (r: string)
    ensures |r| <= |s| && r == s[|s| - |r|..]
    ensures forall k :: 0 <= k < |s| - |r| ==> IsSpace(s[k])
    ensures r == [] || !IsSpace(r[0])
    decreases |s|
  {
    if s != [] && IsSpace(s[0]) then StripLeft(s[1..]) else s
  }

  /** `s.rstrip()`: drops the trailing whitespace and nothing else. */
  function StripRight(s: string): (r: string)
    ensures |r| <= |s| && r == s[..|r|]
    ensures forall k :: |r| <= k < |s| ==> IsSpace(s[k])
    ensures r == [] || !IsSpace(r[|r| - 1])
    decreases |s|
  {
    if s != [] && IsSpace(s[|s| - 1]) then StripRight(s[..|s| - 1]) else s
  }

  /** `s.strip()`: the whitespace at both ends removed. */
  function Strip(s: string): (r: string)
    ensures r == [] || (!IsSpace(r[0]) && !IsSpace(r[|r| - 1]))
  {
    StripRight(StripLeft(s))
  }

  /** What `strip` keeps is a slice of its argument with only whitespace outside it. */
  lemma {:induction false} StripIsSlice(s: string)
    ensures TrimmedAt(s, LeadingSpaces(s), Strip(s))
  {
    var l := StripLeft(s);
    var r := StripRight(l);
    assert r == s[|s| - |l|..][..|r|] == s[|s| - |l|..|s| - |l| + |r|];
  }

  /** Stripping adds no character. */
  lemma StripKeepsOut(s: string, c: char)
    requires c !in s
    ensures c !in Strip(s)
  {
    var l := StripLeft(s);
    assert l == s[|s| - |l|..];
  }

  /** How many whitespace characters `s` starts with. */
  function LeadingSpaces(s: string): nat
  {
    |s| - |StripLeft(s)|
  }

  /** `r` is the slice of `s` starting at `i`, and only whitespace lies outside it. */
  predicate TrimmedAt(s: string, i: int, r: string)
  {
    0 <= i && i + |r| <= |s| && r == s[i..i + |r|] &&
    (forall k :: 0 <= k < i ==> IsSpace(s[k])) &&
    (forall k :: i + |r| <= k < |s| ==> IsSpace(s[k]))
  }

  /** Stripping twice removes nothing more. */
  lemma {:induction false} StripIdempotent(s: string)
    ensures Strip(Strip(s)) == Strip(s)
  {
    var t := Strip(s);
    if t != [] {
      assert StripLeft(t) == t;
      assert StripRight(t) == t;
    }
  }

  /** `s.replace(target, replacement)`: every non-overlapping occurrence of `target`,
      found scanning left to right, is replaced by `replacement`. */
  function ReplaceAll(s: string, target: string, replacement: string): (r: string)
    requires target != []
    ensures forall c :: c in r ==> c in s || c in replacement
    decreases |s|
  {
    if |s| < |target| then s
    else if s[..|target|] == target then replacement + ReplaceAll(s[|target|..], target, replacement)
    else [s[0]] + ReplaceAll(s[1..], target, replacement)
  }

  /** Replacing a single character by text that does not contain it removes it everywhere. */
  lemma {:induction false} ReplaceRemovesChar(s: string, c: char, replacement: string)
    requires c !in replacement
    ensures c !in ReplaceAll(s, [c], replacement)
    decreases |s|
  {
    if |s| >= 1 {
      if s[..1] == [c] {
        ReplaceRemovesChar(s[1..], c, replacement);
      } else {
        assert s[0] != c;
        ReplaceRemovesChar(s[1..], c, replacement);
      }
    }
  }

  /** Text without any occurrence of `target` is left as it is. */
  lemma {:induction false} ReplaceAbsent(s: string, target: string, replacement: string)
    requires target != []
    requires forall i :: !OccursAt(s, target, i)
    ensures ReplaceAll(s, target, replacement) == s
    decreases |s|
  {
    if |s| >= |target| {
      assert !OccursAt(s, target, 0);
      assert s[..|target|] == s[0..|target|];
      forall i
        ensures !OccursAt(s[1..], target, i)
      {
        if 0 <= i && i + |target| <= |s[1..]| {
          assert s[1..][i..i + |target|] == s[i + 1..i + 1 + |target|];
          assert !OccursAt(s, target, i + 1);
        }
      }
      ReplaceAbsent(s[1..], target, replacement);
    }
  }

  /** Text that lacks the first character of the target is returned unchanged. */
  lemma {:induction false} ReplaceMissingHead(s: string, target: string, replacement: string)
    requires target != [] && target[0] !in s
    ensures ReplaceAll(s, target, replacement) == s
    decreases |s|
  {
    if |s| >= |target| {
      assert s[..|target|][0] == s[0];
      ReplaceMissingHead(s[1..], target, replacement);
      assert [s[0]] + s[1..] == s;
    }
  }

  /** `target` occurs in `s` at index `i`. */
  predicate OccursAt(s: string, target: string, i: int)
  {
    0 <= i && i + |target| <= |s| && s[i..i + |target|] == target
  }
}
