/**
 * The Python string operations the Modbus tooling relies on: `str.strip()`,
 * `str.lower()`, `str.split(sep)`, `sep.join(parts)`, `str.startswith` and
 * the substring test `sub in s`.
 */
module PyText {

  /** The characters for which Python's `str.isspace()` holds. */
  const SpaceChars: set<char> := {
    ' ', '\t', '\n', '\U{000B}', '\U{000C}', '\r', '\U{001C}', '\U{001D}', '\U{001E}', '\U{001F}',
    '\U{0085}', '\U{00A0}', '\U{1680}', '\U{2000}', '\U{2001}', '\U{2002}', '\U{2003}', '\U{2004}',
    '\U{2005}', '\U{2006}', '\U{2007}', '\U{2008}', '\U{2009}', '\U{200A}', '\U{2028}', '\U{2029}',
    '\U{202F}', '\U{205F}', '\U{3000}'
  }

  /** `c.isspace()` for the characters Python treats as whitespace. */
  predicate IsSpace(c: char) {
    c in SpaceChars
  }

  /** No printable ASCII character after the space is whitespace. */
  lemma PrintableNotSpace(c: char)
    requires ' ' < c <= '~'
    ensures !IsSpace(c)
  {
  }

  /** The number of whitespace characters `s` starts with. */
  function LeadingSpaces(s: string): (k: nat)
    ensures k <= |s|
    ensures forall i :: 0 <= i < k ==> IsSpace(s[i])
    ensures k < |s| ==> !IsSpace(s[k])
  {
    if s == [] || !IsSpace(s[0]) then 0 else 1 + LeadingSpaces(s[1..])
  }

  /** The number of whitespace characters `s` ends with. */
  function TrailingSpaces(s: string): (k: nat)
    ensures k <= |s|
    ensures forall i :: |s| - k <= i < |s| ==> IsSpace(s[i])
    ensures k < |s| ==> !IsSpace(s[|s| - 1 - k])
  {
    if s == [] || !IsSpace(s[|s| - 1]) then 0 else 1 + TrailingSpaces(s[..|s| - 1])
  }

  /** `s.strip()`: the longest middle part with no whitespace at either end. */
  function Strip(s: string): (r: string)
    ensures |r| <= |s|
    ensures r != [] ==> !IsSpace(r[0]) && !IsSpace(r[|r| - 1])
    ensures (forall i :: 0 <= i < |s| ==> !IsSpace(s[i])) ==> r == s
  {
    var a := LeadingSpaces(s);
    if a == |s| then [] else
      BetweenSpaceRuns(s, a);
      s[a..|s| - TrailingSpaces(s)]
  }

  /** A non-space character lies between the leading and the trailing whitespace. */
  lemma BetweenSpaceRuns(s: string, k: nat)
    requires k < |s| && !IsSpace(s[k])
    ensures LeadingSpaces(s) <= k < |s| - TrailingSpaces(s)
  {
  }

  /**
   * `strip()` yields the empty string exactly for a blank string (one made of
   * whitespace only); otherwise it is the slice between the leading and the
   * trailing whitespace runs.
   */
  lemma StripSlice(s: string)
    ensures Strip(s) == [] <==> forall i :: 0 <= i < |s| ==> IsSpace(s[i])
    ensures Strip(s) != [] ==>
      LeadingSpaces(s) < |s| - TrailingSpaces(s) && Strip(s) == s[LeadingSpaces(s)..|s| - TrailingSpaces(s)]
  {
    var a := LeadingSpaces(s);
    if a < |s| {
      BetweenSpaceRuns(s, a);
      assert Strip(s)[0] == s[a];
    }
  }

  /** A non-space character survives `strip()`, at its place shifted by the leading whitespace. */
  lemma StripKeeps(s: string, k: nat)
    requires k < |s| && !IsSpace(s[k])
    ensures LeadingSpaces(s) <= k < |s| - TrailingSpaces(s)
    ensures Strip(s)[k - LeadingSpaces(s)] == s[k]
  {
    BetweenSpaceRuns(s, k);
  }

  predicate IsUpper(c: char) { 'A' <= c <= 'Z' }

  /** `str.lower()` on ASCII letters: 'A'..'Z' become 'a'..'z', everything else is kept. */
  function LowerChar(c: char): (d: char)
    ensures !IsUpper(d)
    ensures !IsUpper(c) ==> d == c
  {
    if IsUpper(c) then (c as int + 32) as char else c
  }

  function Lower(s: string): (r: string)
    ensures |r| == |s|
    ensures forall i :: 0 <= i < |s| ==> r[i] == LowerChar(s[i])
  {
    seq(|s|, i requires 0 <= i < |s| => LowerChar(s[i]))
  }

  predicate HasUpper(s: string) {
    exists i :: 0 <= i < |s| && IsUpper(s[i])
  }

  /** `s.startswith(p)`. */
  predicate StartsWith(s: string, p: string) {
    |p| <= |s| && s[..|p|] == p
  }

  /** `sub in s`: some slice of `s` equals `sub` (always true for the empty `sub`). */
  predicate Contains(s: string, sub: string)
    decreases |s|
  {
    StartsWith(s, sub) || (|s| > 0 && Contains(s[1..], sub))
  }

  /** `s.split(sep)` with an explicit one-character separator: every separator cuts, empty parts included. */
  function Split(s: string, sep: char): (parts: seq<string>)
    ensures |parts| >= 1
    ensures forall k :: 0 <= k < |parts| ==> sep !in parts[k]
  {
    if s == [] then [""]
    else
      var rest := Split(s[1..], sep);
      if s[0] == sep then [""] + rest
      else [[s[0]] + rest[0]] + rest[1..]
  }

  /** `sep.join(parts)`. */
  function Join(parts: seq<string>, sep: char): string
  {
    if parts == [] then ""
    else if |parts| == 1 then parts[0]
    else parts[0] + [sep] + Join(parts[1..], sep)
  }

  // ---------------------------------------------------------------------------
  // Lemmas

  /** Joining the parts of a split with the same separator gives back the string. */
  lemma {:induction false} JoinSplit(s: string, sep: char)
    ensures Join(Split(s, sep), sep) == s
  {
    if s != [] {
      var rest := Split(s[1..], sep);
      JoinSplit(s[1..], sep);
      if s[0] == sep {
        assert Split(s, sep)[1..] == rest;
      } else {
        var parts := Split(s, sep);
        assert parts[1..] == rest[1..];
        if |rest| == 1 {
          assert Join(rest, sep) == rest[0];
        } else {
          assert Join(rest, sep) == rest[0] + [sep] + Join(rest[1..], sep);
        }
      }
    }
  }

  /** Splitting a join of separator-free parts gives the parts back. */
  lemma {:induction false} SplitJoin(parts: seq<string>, sep: char)
    requires |parts| >= 1
    requires forall k :: 0 <= k < |parts| ==> sep !in parts[k]
    ensures Split(Join(parts, sep), sep) == parts
    decreases |parts|, |parts[0]|
  {
    if |parts| == 1 {
      SplitOfFree(parts[0], sep);
    } else {
      var p := parts[0];
      if p == [] {
        var s := Join(parts, sep);
        assert s == [sep] + Join(parts[1..], sep);
        assert s[1..] == Join(parts[1..], sep);
        SplitJoin(parts[1..], sep);
      } else {
        var s := Join(parts, sep);
        var parts' := [p[1..]] + parts[1..];
        assert s == [p[0]] + Join(parts', sep) by {
          assert Join(parts', sep) == p[1..] + [sep] + Join(parts[1..], sep);
          assert p == [p[0]] + p[1..];
        }
        assert s[1..] == Join(parts', sep);
        assert sep !in p[1..] by { assert forall i :: 0 <= i < |p[1..]| ==> p[1..][i] == p[i + 1]; }
        SplitJoin(parts', sep);
        assert p[0] != sep by { assert p[0] in p; }
        assert [p[0]] + p[1..] == p;
        assert parts == [p] + parts'[1..];
      }
    }
  }

  lemma {:induction false} SplitOfFree(s: string, sep: char)
    requires sep !in s
    ensures Split(s, sep) == [s]
  {
    if s != [] {
      assert s[0] in s;
      assert sep !in s[1..] by { assert forall i :: 0 <= i < |s[1..]| ==> s[1..][i] == s[i + 1]; }
      SplitOfFree(s[1..], sep);
      assert [s[0]] + s[1..] == s;
    }
  }

  /** A lower-cased string has no upper-case letter, so it never equals one that has. */
  lemma LowerNeverUpper(s: string, t: string)
    requires HasUpper(t)
    ensures Lower(s) != t
  {
    var i :| 0 <= i < |t| && IsUpper(t[i]);
    if |s| == |t| {
      assert !IsUpper(Lower(s)[i]);
    }
  }

  /** A string with no whitespace at either end is its own strip. */
  lemma StripTrimmed(s: string)
    requires s != [] && !IsSpace(s[0]) && !IsSpace(s[|s| - 1])
    ensures Strip(s) == s
  {
    assert LeadingSpaces(s) == 0;
    assert s[0..] == s;
    assert TrailingSpaces(s) == 0;
    assert s[..|s| - 0] == s;
  }

  /** Stripping is idempotent. */
  lemma StripIdempotent(s: string)
    ensures Strip(Strip(s)) == Strip(s)
  {
    var r := Strip(s);
    if r != [] {
      assert LeadingSpaces(r) == 0;
      assert r[0..] == r;
      assert TrailingSpaces(r) == 0;
      assert r[..|r| - 0] == r;
    }
  }
}
