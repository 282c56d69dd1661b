/**
 * The two string operations of Python's `str` that the loader relies on:
 * `strip()` with no argument (for the e-mail check) and `replace(p, '')`
 * (for removing the UTC offset from the creation timestamp).
 */
module Text {

  /** Python's `str.isspace()` for a single character. */
  predicate IsSpace(c: char) {
    ('\t' <= c <= '\r') || ('\U{1C}' <= c <= '\U{1F}') || c == ' ' ||
    c == '\U{85}' || c == '\U{A0}' || c == '\U{1680}' ||
    ('\U{2000}' <= c <= '\U{200A}') || c == '\U{2028}' || c == '\U{2029}' ||
    c == '\U{202F}' || c == '\U{205F}' || c == '\U{3000}'
  }

  /** Every character of `s` is white space (the empty string included). */
  predicate IsBlank(s: string) {
    forall i :: 0 <= i < |s| ==> IsSpace(s[i])
  }

  /** `s.lstrip()`: drops leading white space. */
  function TrimLeft(s: string): string {
    if s != [] && IsSpace(s[0]) then TrimLeft(s[1..]) else s
  }

  /** `s.rstrip()`: drops trailing white space. */
  function TrimRight(s: string): string {
    if s != [] && IsSpace(s[|s| - 1]) then TrimRight(s[..|s| - 1]) else s
  }

  /** `s.strip()`: drops white space at both ends. */
  function Strip(s: string): string {
    TrimRight(TrimLeft(s))
  }

  /** `s.lstrip()` is the suffix of `s` after a blank prefix, and does not start with white space. */
  lemma {:induction false} TrimLeftSpec(s: string)
    ensures var r := TrimLeft(s);
      |r| <= |s| && r == s[|s| - |r|..] && IsBlank(s[..|s| - |r|]) && (r != [] ==> !IsSpace(r[0]))
  {
    if s != [] && IsSpace(s[0]) {
      TrimLeftSpec(s[1..]);
      var r := TrimLeft(s);
      assert s[..|s| - |r|] == [s[0]] + s[1..][..|s[1..]| - |r|];
    }
  }

  /** `s.rstrip()` is the prefix of `s` before a blank suffix, and does not end with white space. */
  lemma {:induction false} TrimRightSpec(s: string)
    ensures var r := TrimRight(s);
      |r| <= |s| && r == s[..|r|] && IsBlank(s[|r|..]) && (r != [] ==> !IsSpace(r[|r| - 1]))
  {
    if s != [] && IsSpace(s[|s| - 1]) {
      var s' := s[..|s| - 1];
      TrimRightSpec(s');
      var r := TrimRight(s);
      assert s[|r|..] == s'[|r|..] + [s[|s| - 1]];
    }
  }

  /** `s.strip()` is a slice of `s` framed by white space, neither of whose ends is white space. */
  lemma StripSpec(s: string)
    ensures var r := Strip(s);
      (exists i, j :: 0 <= i <= j <= |s| && r == s[i..j] && IsBlank(s[..i]) && IsBlank(s[j..])) &&
      (r != [] ==> !IsSpace(r[0]) && !IsSpace(r[|r| - 1]))
  {
    var l := TrimLeft(s);
    TrimLeftSpec(s);
    TrimRightSpec(l);
    var r := TrimRight(l);
    var i := |s| - |l|;
    var j := i + |r|;
    assert l == s[i..];
    assert r == s[i..j] by {
      assert r == l[..|r|];
    }
    assert s[j..] == l[|r|..];
    assert 0 <= i <= j <= |s| && r == s[i..j] && IsBlank(s[..i]) && IsBlank(s[j..]);
    if r != [] {
      assert r[0] == l[0];
    }
  }

  /** `s.strip()` is empty exactly when `s` holds nothing but white space. */
  lemma StripEmptyIffBlank(s: string)
    ensures Strip(s) == [] <==> IsBlank(s)
  {
    var l := TrimLeft(s);
    TrimLeftSpec(s);
    TrimRightSpec(l);
    var i := |s| - |l|;
    if Strip(s) == [] {
      assert IsBlank(l);
      assert l == [];
      assert s[..|s|] == s;
    }
    if IsBlank(s) {
      assert l == s[i..];
    }
  }

  /**
   * `s.replace(p, '')`: removes the occurrences of `p` found by a left-to-right
   * scan, each one resuming after the previous match (non-overlapping).
   */
  function RemoveAll(s: string, p: string): (r: string)
    requires p != []
    ensures |r| <= |s|
    decreases |s|
  {
    if |s| < |p| then s
    else if s[..|p|] == p then RemoveAll(s[|p|..], p)
    else [s[0]] + RemoveAll(s[1..], p)
  }

  /** `p` occurs in `s` starting at position `i`. */
  predicate OccursAt(s: string, p: string, i: int) {
    0 <= i && i + |p| <= |s| && s[i..i + |p|] == p
  }

  /** `p` occurs nowhere in `s`. */
  predicate Absent(s: string, p: string) {
    forall i :: 0 <= i <= |s| ==> !OccursAt(s, p, i)
  }

  /** A scan that does not match at the first position keeps that character and moves on. */
  lemma RemoveAllKeep(s: string, p: string)
    requires p != [] && |s| >= |p| && !OccursAt(s, p, 0)
    ensures RemoveAll(s, p) == [s[0]] + RemoveAll(s[1..], p)
  {
  }

  /** A match at the first position is dropped and the scan resumes after it. */
  lemma RemoveAllDrop(s: string, p: string)
    requires p != [] && OccursAt(s, p, 0)
    ensures RemoveAll(s, p) == RemoveAll(s[|p|..], p)
  {
  }

  /** A string in which `p` does not occur is left as it is. */
  lemma {:induction false} RemoveAllAbsent(s: string, p: string)
    requires p != [] && Absent(s, p)
    ensures RemoveAll(s, p) == s
    decreases |s|
  {
    if |s| >= |p| {
      assert !OccursAt(s, p, 0);
      RemoveAllKeep(s, p);
      AbsentTail(s, p);
      RemoveAllAbsent(s[1..], p);
      assert s == [s[0]] + s[1..];
    }
  }

  /** A pattern absent from `s` is absent from its tail. */
  lemma AbsentTail(s: string, p: string)
    requires s != [] && Absent(s, p)
    ensures Absent(s[1..], p)
  {
    forall i | 0 <= i <= |s[1..]| ensures !OccursAt(s[1..], p, i) {
      assert !OccursAt(s, p, i + 1);
      if i + |p| <= |s[1..]| {
        assert s[1..][i..i + |p|] == s[i + 1..i + 1 + |p|];
      }
    }
  }

  /** An occurrence of `p` at the very front is removed. */
  lemma RemoveAllFront(p: string, b: string)
    requires p != []
    ensures RemoveAll(p + b, p) == RemoveAll(b, p)
  {
    var s := p + b;
    assert s[..|p|] == p && s[|p|..] == b;
    RemoveAllDrop(s, p);
  }

  /** A first character of `a` that cannot start `p` is kept. */
  lemma RemoveAllPast(a: string, p: string, b: string)
    requires p != [] && a != [] && a[0] != p[0]
    ensures RemoveAll(a + p + b, p) == [a[0]] + RemoveAll(a[1..] + p + b, p)
  {
    var s := a + p + b;
    assert s[..|p|][0] == a[0];
    RemoveAllKeep(s, p);
    assert s[1..] == a[1..] + p + b;
  }

  /**
   * When the first character of `p` does not occur in `a`, the occurrence of
   * `p` right after `a` is removed and the scan resumes on what follows it.
   */
  lemma {:induction false} RemoveAllAfter(a: string, p: string, b: string)
    requires p != [] && p[0] !in a
    ensures RemoveAll(a + p + b, p) == a + RemoveAll(b, p)
    decreases |a|
  {
    if a == [] {
      assert a + p + b == p + b;
      RemoveAllFront(p, b);
    } else {
      var rest := RemoveAll(b, p);
      calc {
        RemoveAll(a + p + b, p);
      == { RemoveAllPast(a, p, b); }
        [a[0]] + RemoveAll(a[1..] + p + b, p);
      == { assert p[0] !in a[1..]; RemoveAllAfter(a[1..], p, b); }
        [a[0]] + (a[1..] + rest);
      == { assert a == [a[0]] + a[1..]; }
        a + rest;
      }
    }
  }
}
