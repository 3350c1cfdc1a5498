/** The string operations of Python that the audit tool uses (tools/check_pnpm_audit_exceptions.py). */
module PythonText {
  import opened Prelude

  /** `str.isspace` for one character. */
  predicate IsSpace(c: char) {
    var u := c as int;
    9 <= u <= 13 || 28 <= u <= 32 || u == 0x85 || u == 0xA0 || u == 0x1680 || 0x2000 <= u <= 0x200A
    || u == 0x2028 || u == 0x2029 || u == 0x202F || u == 0x205F || u == 0x3000
  }

  /** In particular: blank, tab and the line ends are whitespace, printable ASCII is not. */
  lemma AsciiSpaces(c: char)
    ensures c == ' ' || c == '\t' || c == '\n' || c == '\r' ==> IsSpace(c)
    ensures '!' <= c <= '~' ==> !IsSpace(c)
  {}

  predicate AllSpace(s: string) {
    forall i :: 0 <= i < |s| ==> IsSpace(s[i])
  }

  predicate Trimmed(s: string) {
    s == [] || (!IsSpace(s[0]) && !IsSpace(s[|s| - 1]))
  }

  function LStrip(s: string): string {
    if s != [] && IsSpace(s[0]) then LStrip(s[1..]) else s
  }

  function RStrip(s: string): string {
    if s != [] && IsSpace(s[|s| - 1]) then RStrip(s[..|s| - 1]) else s
  }

  /** `s.strip()`. */
  function Strip(s: string): string {
    RStrip(LStrip(s))
  }

  lemma {:induction false} LStripSpaces(a: string, t: string)
    requires AllSpace(a) && (t == [] || !IsSpace(t[0]))
    ensures LStrip(a + t) == t
  {
    if a == [] {
      assert a + t == t;
    } else {
      LStripSpaces(a[1..], t);
      assert (a + t)[1..] == a[1..] + t;
    }
  }

  lemma {:induction false} RStripSpaces(t: string, b: string)
    requires AllSpace(b) && (t == [] || !IsSpace(t[|t| - 1]))
    ensures RStrip(t + b) == t
  {
    if b == [] {
      assert t + b == t;
    } else {
      RStripSpaces(t, b[..|b| - 1]);
      assert (t + b)[..|t + b| - 1] == t + b[..|b| - 1];
    }
  }

  lemma {:induction false} LStripParts(s: string) returns (a: string)
    ensures AllSpace(a) && s == a + LStrip(s) && (LStrip(s) == [] || !IsSpace(LStrip(s)[0]))
  {
    a := [];
    if s != [] && IsSpace(s[0]) {
      var rest := LStripParts(s[1..]);
      a := [s[0]] + rest;
      assert s == [s[0]] + s[1..];
    }
  }

  lemma SpaceSnoc(a: string, c: char)
    requires AllSpace(a) && IsSpace(c)
    ensures AllSpace(a + [c])
  {}

  lemma {:induction false} RStripParts(s: string) returns (b: string)
    ensures AllSpace(b) && s == RStrip(s) + b && (RStrip(s) == [] || !IsSpace(RStrip(s)[|RStrip(s)| - 1]))
  {
    b := [];
    if s != [] && IsSpace(s[|s| - 1]) {
      var front, last := s[..|s| - 1], s[|s| - 1];
      var rest := RStripParts(front);
      b := rest + [last];
      SpaceSnoc(rest, last);
      LastSnoc(s);
      assert RStrip(front) + b == (RStrip(front) + rest) + [last];
    }
  }

  /** Stripping takes whitespace off both ends and leaves a trimmed string. */
  lemma StripParts(s: string) returns (a: string, b: string)
    ensures AllSpace(a) && AllSpace(b) && s == a + Strip(s) + b && Trimmed(Strip(s))
  {
    a := LStripParts(s);
    b := RStripParts(LStrip(s));
    if Strip(s) != [] {
      assert LStrip(s)[0] == Strip(s)[0];
    }
  }

  /** Padding a trimmed string with whitespace does not change what is left of it; in particular,
      stripping it changes nothing. */
  lemma StripPadded(a: string, t: string, b: string)
    requires AllSpace(a) && AllSpace(b) && Trimmed(t)
    ensures Strip(a + t + b) == t
  {
    if t == [] {
      assert a + t + b == a + b + [];
      LStripSpaces(a + b, []);
      assert RStrip([]) == [];
    } else {
      assert a + t + b == a + (t + b);
      LStripSpaces(a, t + b);
      RStripSpaces(t, b);
    }
  }

  lemma StripTrimmed(t: string)
    ensures Strip(t) == t <==> Trimmed(t)
  {
    if Trimmed(t) {
      assert [] + t + [] == t;
      StripPadded([], t, []);
    } else {
      var a, b := StripParts(t);
    }
  }

  predicate StartsWith(s: string, p: string) {
    |p| <= |s| && s[..|p|] == p
  }

  predicate EndsWith(s: string, p: string) {
    |p| <= |s| && s[|s| - |p|..] == p
  }

  function LowerChar(c: char): char {
    if 'A' <= c <= 'Z' then (c as int + 32) as char else c
  }

  /** Lower case, for the ASCII letters. */
  function Lower(s: string): (r: string)
    ensures |r| == |s|
  {
    seq(|s|, i requires 0 <= i < |s| => LowerChar(s[i]))
  }

  /** The characters are the same, or the upper and the lower case of one ASCII letter. */
  predicate SameLetter(c: char, d: char) {
    || c == d
    || ('A' <= c <= 'Z' && d as int - 'a' as int == c as int - 'A' as int)
    || ('A' <= d <= 'Z' && c as int - 'a' as int == d as int - 'A' as int)
  }

  lemma LowerCharExactly(c: char, d: char)
    ensures LowerChar(c) == LowerChar(d) <==> SameLetter(c, d)
  {
    assert LowerChar(c) as int == if 'A' <= c <= 'Z' then c as int + 32 else c as int;
    assert LowerChar(d) as int == if 'A' <= d <= 'Z' then d as int + 32 else d as int;
    assert LowerChar(c) == LowerChar(d) <==> LowerChar(c) as int == LowerChar(d) as int;
  }

  /** The strings agree position by position, up to the case of ASCII letters. */
  predicate SameUpToCase(s: string, t: string) {
    |s| == |t| && forall i :: 0 <= i < |s| ==> SameLetter(s[i], t[i])
  }

  /** Lowering forgets the case of letters, and nothing else. */
  lemma LowerForgetsCaseExactly(s: string, t: string)
    ensures Lower(s) == Lower(t) <==> SameUpToCase(s, t)
  {
    if |s| == |t| {
      forall i | 0 <= i < |s| ensures Lower(s)[i] == Lower(t)[i] <==> SameLetter(s[i], t[i]) {
        LowerCharExactly(s[i], t[i]);
      }
    } else {
      assert |Lower(s)| != |Lower(t)|;
    }
  }

  lemma LowerJoin(s: string, t: string)
    ensures Lower(s + t) == Lower(s) + Lower(t)
  {}

  lemma LowerKeepsSpace(s: string, i: nat)
    requires i < |s|
    ensures IsSpace(Lower(s)[i]) <==> IsSpace(s[i])
  {}

  /** Lowering and stripping commute. */
  lemma LowerStrip(s: string)
    ensures Lower(Strip(s)) == Strip(Lower(s))
  {
    var a, b := StripParts(s);
    var t := Strip(s);
    LowerJoin(a + t, b);
    LowerJoin(a, t);
    if t != "" {
      LowerKeepsSpace(t, 0);
      LowerKeepsSpace(t, |t| - 1);
    }
    forall i | 0 <= i < |a| ensures IsSpace(Lower(a)[i]) {
      LowerKeepsSpace(a, i);
    }
    forall i | 0 <= i < |b| ensures IsSpace(Lower(b)[i]) {
      LowerKeepsSpace(b, i);
    }
    StripPadded(Lower(a), Lower(t), Lower(b));
  }
}
