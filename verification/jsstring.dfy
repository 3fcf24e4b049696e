/** The two JavaScript string operations the dashboard relies on:
    `String.prototype.trim` (used as a truth test on the title) and the
    relational `<` on strings (used to compare due dates with today).
    Characters are Unicode code points; JavaScript compares UTF-16 code
    units, which orders the same way for every character of the Basic
    Multilingual Plane and in particular for the ASCII digits and `-` of a date. */
module JsString {

  /** The characters ECMAScript's `trim` removes: the WhiteSpace production
      (tab, vertical tab, form feed, space, no-break space, byte order mark
      and the space separators of Unicode category Zs) and the
      LineTerminator production (line feed, carriage return, line and
      paragraph separators). */
  predicate IsWhitespace(c: char) {
    var n := c as int;
    || n == 0x09 || n == 0x0A || n == 0x0B || n == 0x0C || n == 0x0D
    || n == 0x20 || n == 0xA0 || n == 0x1680
    || (0x2000 <= n <= 0x200A)
    || n == 0x2028 || n == 0x2029 || n == 0x202F || n == 0x205F
    || n == 0x3000 || n == 0xFEFF
  }

  /** Every character of `s` is whitespace (vacuously so for ""). */
  predicate IsBlank(s: string) {
    forall i :: 0 <= i < |s| ==> IsWhitespace(s[i])
  }

  /** `s` without its leading whitespace. */
  function TrimStart(s: string): (r: string)
    ensures |r| <= |s| && r == s[|s| - |r|..]
    ensures IsBlank(s[..|s| - |r|])
    ensures r == [] || !IsWhitespace(r[0])
    decreases |s|
  {
    if |s| > 0 && IsWhitespace(s[0]) then
      var r := TrimStart(s[1..]);
      assert s[1..][|s| - 1 - |r|..] == s[|s| - |r|..];
      assert s[..|s| - |r|] == [s[0]] + s[1..][..|s| - 1 - |r|];
      r
    else
      assert s[..0] == [];
      s
  }

  /** `s` without its trailing whitespace. */
  function TrimEnd(s: string): (r: string)
    ensures |r| <= |s| && r == s[..|r|]
    ensures IsBlank(s[|r|..])
    ensures r == [] || !IsWhitespace(r[|r| - 1])
    decreases |s|
  {
    if |s| > 0 && IsWhitespace(s[|s| - 1]) then
      var r := TrimEnd(s[..|s| - 1]);
      assert s[..|s| - 1][..|r|] == s[..|r|];
      assert s[|r|..] == s[..|s| - 1][|r|..] + [s[|s| - 1]];
      r
    else
      assert s[|s|..] == [];
      s
  }

  /** `s.trim()`: a contiguous piece of `s` that neither starts nor ends with
      whitespace, and is empty exactly when `s` is blank. */
  function Trim(s: string): (r: string)
    ensures |r| <= |s|
    ensures r == [] <==> IsBlank(s)
    ensures r != [] ==> !IsWhitespace(r[0]) && !IsWhitespace(r[|r| - 1])
    ensures exists i, j :: 0 <= i <= j <= |s| && r == s[i..j] && IsBlank(s[..i]) && IsBlank(s[j..])
  {
    var t := TrimStart(s);
    var r := TrimEnd(t);
    BetweenBlanks(s, t, r);
    r
  }

  /** A piece `r` cut from the front of a suffix `t` of `s`, with blanks
      before `t` and after `r`, is the slice of `s` between two blank
      stretches. When neither `t` nor `r` starts or ends with whitespace,
      that slice is empty exactly when `s` is blank. */
  lemma BetweenBlanks(s: string, t: string, r: string)
    requires |t| <= |s| && t == s[|s| - |t|..] && IsBlank(s[..|s| - |t|])
    requires t == [] || !IsWhitespace(t[0])
    requires |r| <= |t| && r == t[..|r|] && IsBlank(t[|r|..])
    requires r == [] || !IsWhitespace(r[|r| - 1])
    ensures |r| <= |s|
    ensures r == [] <==> IsBlank(s)
    ensures r != [] ==> !IsWhitespace(r[0]) && !IsWhitespace(r[|r| - 1])
    ensures exists i, j :: 0 <= i <= j <= |s| && r == s[i..j] && IsBlank(s[..i]) && IsBlank(s[j..])
  {
    var i := |s| - |t|;
    assert t[|r|..] == s[i + |r|..];
    assert r == s[i..i + |r|];
    if r == [] {
      assert t == [];
      forall k | 0 <= k < |s|
        ensures IsWhitespace(s[k])
      {
        assert s[k] == s[..i][k];
      }
    } else {
      assert r[0] == t[0];
    }
  }

  /** Trimming an already trimmed string changes nothing. */
  lemma TrimIdempotent(s: string)
    ensures Trim(Trim(s)) == Trim(s)
  {
    var r := Trim(s);
    assert TrimStart(r) == r;
    assert TrimEnd(r) == r;
  }

  /** JavaScript `a < b` on strings: compare at the first position where they
      differ, and a proper prefix is smaller than the longer string. */
  predicate Less(a: string, b: string)
    ensures Less(a, b) ==> a != b
    ensures |a| < |b| && a == b[..|a|] ==> Less(a, b)
    decreases |a|
  {
    if |b| == 0 then false
    else if |a| == 0 then true
    else if a[0] != b[0] then a[0] < b[0]
    else
      assert |a| < |b| && a == b[..|a|] ==> a[1..] == b[1..][..|a| - 1];
      assert a[1..] != b[1..] ==> a != b;
      Less(a[1..], b[1..])
  }

  /** The length of the longest common prefix of `a` and `b`. */
  function CommonPrefix(a: string, b: string): (k: nat)
    ensures k <= |a| && k <= |b|
    ensures a[..k] == b[..k]
    ensures k < |a| && k < |b| ==> a[k] != b[k]
    decreases |a|
  {
    if |a| == 0 || |b| == 0 || a[0] != b[0] then 0
    else
      var k := CommonPrefix(a[1..], b[1..]);
      assert a[..k + 1] == [a[0]] + a[1..][..k];
      assert b[..k + 1] == [b[0]] + b[1..][..k];
      k + 1
  }

  /** `Less` is the ordering ECMAScript's IsLessThan describes: with `k` the
      first position where the strings differ, `a < b` holds exactly when `b`
      goes on past `k` and either `a` stops there or has the smaller character. */
  lemma {:induction false} LessAtFirstDifference(a: string, b: string)
    ensures var k := CommonPrefix(a, b);
      Less(a, b) <==> k < |b| && (k == |a| || a[k] < b[k])
    decreases |a|
  {
    if |a| > 0 && |b| > 0 && a[0] == b[0] {
      LessAtFirstDifference(a[1..], b[1..]);
    }
  }

  /** No string is less than itself. */
  lemma {:induction false} LessIrreflexive(a: string)
    ensures !Less(a, a)
    decreases |a|
  {
    if |a| > 0 {
      LessIrreflexive(a[1..]);
    }
  }

  /** `Less` is transitive. */
  lemma {:induction false} LessTransitive(a: string, b: string, c: string)
    requires Less(a, b) && Less(b, c)
    ensures Less(a, c)
    decreases |a|
  {
    if |a| > 0 && a[0] == b[0] && b[0] == c[0] {
      LessTransitive(a[1..], b[1..], c[1..]);
    }
  }

  /** Two different strings are always ordered one way or the other, and
      never both ways. */
  lemma {:induction false} LessTrichotomy(a: string, b: string)
    ensures a == b || Less(a, b) || Less(b, a)
    ensures !(Less(a, b) && Less(b, a))
    decreases |a|
  {
    if |a| > 0 && |b| > 0 && a[0] == b[0] {
      LessTrichotomy(a[1..], b[1..]);
      if a[1..] == b[1..] {
        assert a == [a[0]] + a[1..] && b == [b[0]] + b[1..];
      }
    }
  }

  /** Comparing two strings that start with pieces of equal length: the
      first pieces decide, unless they are equal. */
  lemma {:induction false} LessConcat(a1: string, a2: string, b1: string, b2: string)
    requires |a1| == |b1|
    ensures Less(a1 + a2, b1 + b2) <==> Less(a1, b1) || (a1 == b1 && Less(a2, b2))
    decreases |a1|
  {
    if |a1| == 0 {
      assert a1 + a2 == a2 && b1 + b2 == b2;
    } else {
      assert (a1 + a2)[0] == a1[0] && (b1 + b2)[0] == b1[0];
      assert (a1 + a2)[1..] == a1[1..] + a2;
      assert (b1 + b2)[1..] == b1[1..] + b2;
      LessConcat(a1[1..], a2, b1[1..], b2);
      if a1[0] == b1[0] && a1[1..] == b1[1..] {
        assert a1 == [a1[0]] + a1[1..] && b1 == [b1[0]] + b1[1..];
      }
    }
  }
}
