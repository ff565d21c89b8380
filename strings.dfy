/**
  The JavaScript string operations the calendar import relies on, written out
  over `seq<char>`: `indexOf`, `includes`, `replace` with a string pattern
  (first occurrence only), `replace` with a global pattern, `split`, `join`,
  `trim`, `toLowerCase` and `Number.prototype.toString`.
*/
module Strings {
  import opened Wrappers

  /** `p` occurs in `s` starting at index `i`. */
  predicate OccursAt(s: string, p: string, i: nat) {
    i + |p| <= |s| && s[i..i + |p|] == p
  }

  /** `s.includes(p)`: `p` occurs somewhere in `s` (the empty string occurs everywhere). */
  ghost predicate Contains(s: string, p: string) {
    exists i: nat :: OccursAt(s, p, i)
  }

  /** The first index at or after `i` where `p` occurs in `s`. */
  function IndexFrom(s: string, p: string, i: nat): (r: Option<nat>)
    requires i <= |s|
    decreases |s| - i
    ensures r.Some? ==> i <= r.value && r.value + |p| <= |s|
  {
    if OccursAt(s, p, i) then Some(i)
    else if i == |s| then None
    else IndexFrom(s, p, i + 1)
  }

  /** `IndexFrom` finds an occurrence, and none lies between `i` and the one it finds. */
  lemma {:induction false} IndexFromSpec(s: string, p: string, i: nat)
    requires i <= |s|
    decreases |s| - i
    ensures IndexFrom(s, p, i).Some? ==> OccursAt(s, p, IndexFrom(s, p, i).value)
    ensures IndexFrom(s, p, i).Some? ==> forall j: nat :: i <= j < IndexFrom(s, p, i).value ==> !OccursAt(s, p, j)
    ensures IndexFrom(s, p, i).None? ==> forall j: nat :: i <= j ==> !OccursAt(s, p, j)
  {
    if !OccursAt(s, p, i) && i < |s| {
      IndexFromSpec(s, p, i + 1);
    }
  }

  /** `s.indexOf(p)`, with `None` for JavaScript's `-1`. */
  function IndexOf(s: string, p: string): (r: Option<nat>)
    ensures r.Some? ==> r.value + |p| <= |s|
  {
    IndexFrom(s, p, 0)
  }

  /** `indexOf` succeeds exactly when the pattern occurs, and then gives its leftmost occurrence. */
  lemma IndexOfSpec(s: string, p: string)
    ensures IndexOf(s, p).Some? <==> Contains(s, p)
    ensures IndexOf(s, p).Some? ==> OccursAt(s, p, IndexOf(s, p).value)
    ensures IndexOf(s, p).Some? ==> forall j: nat :: j < IndexOf(s, p).value ==> !OccursAt(s, p, j)
  {
    IndexFromSpec(s, p, 0);
  }

  /**
    `s.replace(p, x)` with a string pattern: only the FIRST occurrence of `p`
    is replaced, and a string without `p` comes back unchanged. Replacement
    patterns such as `$&` are taken literally.
  */
  function ReplaceFirst(s: string, p: string, x: string): (r: string)
  {
    match IndexOf(s, p)
    case None => s
    case Some(i) => s[..i] + x + s[i + |p|..]
  }

  /**
    What `ReplaceFirst` does: a text without the pattern is unchanged, and
    otherwise the leftmost occurrence, and only it, is replaced.
  */
  lemma ReplaceFirstSpec(s: string, p: string, x: string)
    ensures !Contains(s, p) ==> ReplaceFirst(s, p, x) == s
    ensures forall i: nat :: OccursAt(s, p, i) && (forall j: nat :: j < i ==> !OccursAt(s, p, j)) ==>
              ReplaceFirst(s, p, x) == s[..i] + x + s[i + |p|..]
  {
    IndexOfSpec(s, p);
    match IndexOf(s, p)
    case None =>
    case Some(k) =>
      forall i: nat | OccursAt(s, p, i) && (forall j: nat :: j < i ==> !OccursAt(s, p, j))
        ensures ReplaceFirst(s, p, x) == s[..i] + x + s[i + |p|..]
      {
        FirstOccurrenceUnique(s, p, i, k);
      }
  }

  /** There is only one leftmost occurrence. */
  lemma FirstOccurrenceUnique(s: string, p: string, i: nat, k: nat)
    requires OccursAt(s, p, i) && forall j: nat :: j < i ==> !OccursAt(s, p, j)
    requires OccursAt(s, p, k) && forall j: nat :: j < k ==> !OccursAt(s, p, j)
    ensures i == k
  {
  }

  /** Replacing a pattern by itself changes nothing. */
  lemma ReplaceFirstSelf(s: string, p: string)
    ensures ReplaceFirst(s, p, p) == s
  {
    IndexOfSpec(s, p);
    match IndexOf(s, p)
    case None =>
    case Some(i) =>
      assert s[..i] + p + s[i + |p|..] == s[..i] + s[i..i + |p|] + s[i + |p|..];
      assert s[..i] + s[i..i + |p|] + s[i + |p|..] == s;
  }

  /** `s.replace(/p/g, x)`: every non-overlapping occurrence, scanning left to right. */
  function ReplaceAll(s: string, p: string, x: string): (r: string)
    requires p != []
    ensures !Contains(s, p) ==> r == s
    decreases |s|
  {
    IndexOfSpec(s, p);
    match IndexOf(s, p)
    case None => s
    case Some(i) => s[..i] + x + ReplaceAll(s[i + |p|..], p, x)
  }

  /** No occurrence of `p` lies wholly inside the text before its first occurrence. */
  lemma PrefixBeforeFirst(s: string, p: string, i: nat)
    requires p != []
    requires OccursAt(s, p, i) && forall j: nat :: j < i ==> !OccursAt(s, p, j)
    ensures !Contains(s[..i], p)
  {
    forall j: nat ensures !OccursAt(s[..i], p, j) {
      if j + |p| <= i {
        assert s[..i][j..j + |p|] == s[j..j + |p|];
        assert !OccursAt(s, p, j);
      }
    }
  }

  /** A pattern holding a character the text lacks does not occur in it. */
  lemma AbsentChar(s: string, p: string, c: char)
    requires c in p && c !in s
    ensures IndexOf(s, p).None?
  {
    IndexOfSpec(s, p);
    forall i: nat ensures !OccursAt(s, p, i) {
      if i + |p| <= |s| {
        var k :| 0 <= k < |p| && p[k] == c;
        assert s[i..i + |p|][k] == s[i + k];
      }
    }
  }

  /**
    A pattern whose first character `a` lacks, and which lacks the character `c`,
    occurs in `a + f + [c]` only where it occurs in `f`.
  */
  lemma EnclosedAbsent(a: string, f: string, c: char, p: string)
    requires |p| > 0 && p[0] !in a && c !in p
    requires IndexOf(f, p).None?
    ensures IndexOf(a + f + [c], p).None?
  {
    var s := a + f + [c];
    IndexOfSpec(f, p);
    IndexOfSpec(s, p);
    forall i: nat ensures !OccursAt(s, p, i) {
      if i + |p| <= |s| {
        assert s[i..i + |p|][0] == s[i];
        if i < |a| {
          assert s[i] == a[i];
        } else if i + |p| > |a| + |f| {
          assert s[i..i + |p|][|a| + |f| - i] == s[|a| + |f|] == c;
        } else {
          assert s[i..i + |p|] == f[i - |a|..i - |a| + |p|];
          assert !OccursAt(f, p, i - |a|);
        }
      }
    }
  }

  /**
    A pattern starting with a character that the text holds only at its front
    occurs, if at all, at index 0; a mismatch at position `k` rules that out.
  */
  lemma MismatchAfterOnlyLead(s: string, p: string, k: nat)
    requires k < |p| && (k < |s| ==> s[k] != p[k])
    requires forall j :: 0 < j < |s| ==> s[j] != p[0]
    ensures IndexOf(s, p).None?
  {
    IndexOfSpec(s, p);
    forall i: nat ensures !OccursAt(s, p, i) {
      if i + |p| <= |s| {
        assert s[i..i + |p|][0] == s[i];
        if i == 0 {
          assert s[..|p|][k] == s[k];
        }
      }
    }
  }

  /** `s.split(sep)` for a non-empty separator: the pieces between occurrences, in order. */
  function SplitOn(s: string, sep: string): (r: seq<string>)
    requires sep != []
    ensures |r| >= 1
    ensures forall k :: 0 <= k < |r| ==> !Contains(r[k], sep)
    decreases |s|
  {
    IndexOfSpec(s, sep);
    match IndexOf(s, sep)
    case None => [s]
    case Some(i) =>
      PrefixBeforeFirst(s, sep, i);
      [s[..i]] + SplitOn(s[i + |sep|..], sep)
  }

  /** `xs.join(sep)`; the empty list joins to `""`. */
  function Join(xs: seq<string>, sep: string): string
  {
    if |xs| == 0 then ""
    else if |xs| == 1 then xs[0]
    else xs[0] + sep + Join(xs[1..], sep)
  }

  /** A global replace is a split on the pattern followed by a join with the replacement. */
  lemma {:induction false} ReplaceAllIsSplitJoin(s: string, p: string, x: string)
    requires p != []
    ensures ReplaceAll(s, p, x) == Join(SplitOn(s, p), x)
    decreases |s|
  {
    IndexOfSpec(s, p);
    match IndexOf(s, p)
    case None =>
    case Some(i) =>
      var rest := s[i + |p|..];
      var pieces := SplitOn(rest, p);
      ReplaceAllIsSplitJoin(rest, p, x);
      assert ReplaceAll(s, p, x) == s[..i] + x + ReplaceAll(rest, p, x);
      assert SplitOn(s, p) == [s[..i]] + pieces;
      assert ([s[..i]] + pieces)[1..] == pieces;
      assert Join([s[..i]] + pieces, x) == s[..i] + x + Join(pieces, x);
  }

  /** Splitting on a separator and joining with it again gives back the original text. */
  lemma {:induction false} SplitJoinRoundTrip(s: string, sep: string)
    requires sep != []
    ensures Join(SplitOn(s, sep), sep) == s
    decreases |s|
  {
    IndexOfSpec(s, sep);
    match IndexOf(s, sep)
    case None =>
    case Some(i) =>
      var rest := s[i + |sep|..];
      var pieces := SplitOn(rest, sep);
      SplitJoinRoundTrip(rest, sep);
      assert SplitOn(s, sep) == [s[..i]] + pieces;
      assert ([s[..i]] + pieces)[1..] == pieces;
      assert Join([s[..i]] + pieces, sep) == s[..i] + sep + rest;
      assert s[..i] + sep + rest == s by {
        assert s[i..i + |sep|] == sep;
        assert s[..i] + s[i..i + |sep|] + s[i + |sep|..] == s;
      }
  }

  /** Replacing every occurrence of a pattern by itself changes nothing. */
  lemma ReplaceAllSelf(s: string, p: string)
    requires p != []
    ensures ReplaceAll(s, p, p) == s
  {
    ReplaceAllIsSplitJoin(s, p, p);
    SplitJoinRoundTrip(s, p);
  }

  /** The characters `String.prototype.trim` removes: ECMAScript WhiteSpace and LineTerminator. */
  predicate IsSpace(c: char) {
    c == ' ' || c == '\t' || c == '\n' || c == '\r' || c == '\U{000B}' || c == '\U{000C}'
    || c == '\U{00A0}' || c == '\U{1680}' || ('\U{2000}' <= c <= '\U{200A}')
    || c == '\U{2028}' || c == '\U{2029}' || c == '\U{202F}' || c == '\U{205F}'
    || c == '\U{3000}' || c == '\U{FEFF}'
  }

  /** The characters a regular expression's `.` does not match. */
  predicate IsLineTerminator(c: char) {
    c == '\n' || c == '\r' || c == '\U{2028}' || c == '\U{2029}'
  }

  /** `s.trimStart()`: a suffix of `s` that starts with a non-space, all that was cut being space. */
  function TrimStart(s: string): (r: string)
    ensures |r| <= |s| && r == s[|s| - |r|..]
    ensures r == [] || !IsSpace(r[0])
    ensures forall k :: 0 <= k < |s| - |r| ==> IsSpace(s[k])
  {
    if s != [] && IsSpace(s[0]) then TrimStart(s[1..]) else s
  }

  /** `s.trimEnd()`: a prefix of `s` that ends with a non-space, all that was cut being space. */
  function TrimEnd(s: string): (r: string)
    ensures |r| <= |s| && r == s[..|r|]
    ensures r == [] || !IsSpace(r[|r| - 1])
    ensures forall k :: |r| <= k < |s| ==> IsSpace(s[k])
  {
    if s != [] && IsSpace(s[|s| - 1]) then TrimEnd(s[..|s| - 1]) else s
  }

  /** Neither end of `s` is white space. */
  predicate Trimmed(s: string) {
    s == [] || (!IsSpace(s[0]) && !IsSpace(s[|s| - 1]))
  }

  /** `s.trim()`. */
  function Trim(s: string): (r: string)
    ensures |r| <= |s|
    ensures Trimmed(r)
    ensures r == [] <==> forall k :: 0 <= k < |s| ==> IsSpace(s[k])
  {
    var t := TrimStart(s);
    var r := TrimEnd(t);
    assert r != [] ==> r[0] == t[0];
    assert r == [] ==> t == [];
    r
  }

  /** Trimming is idempotent. */
  lemma TrimIdempotent(s: string)
    ensures Trim(Trim(s)) == Trim(s)
  {
    var r := Trim(s);
    if r != [] {
      assert TrimStart(r) == r;
      assert TrimEnd(r) == r;
    }
  }

  /** `toLowerCase` on one character, for the ASCII letters. */
  function LowerChar(c: char): char {
    if 'A' <= c <= 'Z' then (c as int + 32) as char else c
  }

  /** `s.toLowerCase()`, restricted to ASCII case. */
  function ToLower(s: string): (r: string)
    ensures |r| == |s| && forall k :: 0 <= k < |s| ==> r[k] == LowerChar(s[k])
  {
    seq(|s|, k requires 0 <= k < |s| => LowerChar(s[k]))
  }

  /** `/p/i.test(s)` for a pattern `p` without metacharacters: `p` occurs in `s` ignoring ASCII case. */
  predicate ContainsIgnoringCase(s: string, p: string) {
    IndexOf(ToLower(s), ToLower(p)).Some?
  }

  function DigitChar(d: nat): (c: char)
    requires d < 10
    ensures '0' <= c <= '9'
  {
    ('0' as int + d) as char
  }

  predicate IsDigits(s: string) {
    s != [] && forall k :: 0 <= k < |s| ==> '0' <= s[k] <= '9'
  }

  /** The decimal value of a string of digits. */
  function DigitsValue(s: string): nat
    requires forall k :: 0 <= k < |s| ==> '0' <= s[k] <= '9'
  {
    if s == [] then 0 else DigitsValue(s[..|s| - 1]) * 10 + (s[|s| - 1] as int - '0' as int)
  }

  /** The decimal rendering of a natural number, most significant digit first. */
  function NatToString(n: nat): (r: string)
    ensures IsDigits(r)
  {
    if n < 10 then [DigitChar(n)] else NatToString(n / 10) + [DigitChar(n % 10)]
  }

  /** `n.toString()` for an integer: a minus sign before the digits of a negative number. */
  function IntToString(n: int): string {
    if n < 0 then "-" + NatToString(-n) else NatToString(n)
  }

  /** Reads back what `IntToString` writes: an optional minus sign followed by digits. */
  function ParseInt(s: string): Option<int> {
    if |s| > 1 && s[0] == '-' && IsDigits(s[1..]) then Some(-(DigitsValue(s[1..]) as int))
    else if IsDigits(s) then Some(DigitsValue(s))
    else None
  }

  lemma {:induction false} NatToStringValue(n: nat)
    ensures DigitsValue(NatToString(n)) == n
    decreases n
  {
    if n >= 10 {
      var r := NatToString(n);
      NatToStringValue(n / 10);
      assert r[..|r| - 1] == NatToString(n / 10);
      assert r[|r| - 1] == DigitChar(n % 10);
    }
  }

  /** Rendering an integer in decimal loses nothing. */
  lemma IntToStringRoundTrip(n: int)
    ensures ParseInt(IntToString(n)) == Some(n)
  {
    if n < 0 {
      NegativeRoundTrip(n);
    } else {
      var d := NatToString(n);
      NatToStringValue(n);
      assert d[0] != '-';
    }
  }

  lemma NegativeRoundTrip(n: int)
    requires n < 0
    ensures ParseInt("-" + NatToString(-n)) == Some(n)
  {
    var d := NatToString(-n);
    var s := "-" + d;
    NatToStringValue(-n);
    assert s[1..] == d;
    assert |s| > 1 && s[0] == '-' && IsDigits(s[1..]);
    assert ParseInt(s) == Some(-(DigitsValue(d) as int));
  }
}
