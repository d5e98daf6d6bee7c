/** Escaping with a dictionary: only the bytes that it names, and zeros, are escaped. */
module EscapeDictionary {
  import opened Escape
  import opened EscapePrintable

  /** A buffer without zeros and without bytes of the dictionary is left as it is. */
  lemma {:induction false} OthersStay(s: seq<Byte>, f: Flags, only: seq<Byte>, isprint: Byte -> bool)
    requires only != [] && forall i :: 0 <= i < |s| ==> s[i] != 0 && s[i] !in only
    ensures Escaped(s, f, only, isprint) == s
  {
    if s != [] {
      OthersStay(s[1..], f, only, isprint);
      assert Escape1(s[0], f, only, isprint) == [s[0]];
      assert s == [s[0]] + s[1..];
    }
  }

  /** The characters that escapes are written with. */
  predicate EscapeChar(c: Byte) {
    || c == BACKSLASH || 48 <= c <= 57 || 97 <= c <= 102
    || c == 110 || c == 114 || c == 116 || c == 118 || c == 120
  }

  lemma TokenChars(c: Byte, f: Flags)
    requires f.octal || f.hex
    ensures var e := ByClass(c, f);
            |e| >= 2 && |e| <= 4 && e[0] == BACKSLASH && forall i :: 0 <= i < |e| ==> e[i] != 0 && EscapeChar(e[i])
  {
  }

  /** Nothing that the dictionary names is left, nor a zero, except the characters that escapes are written with. */
  lemma {:induction false} NamedAreGone(s: seq<Byte>, f: Flags, only: seq<Byte>, isprint: Byte -> bool, c: Byte)
    requires only != [] && CatchAll(f) && c in Escaped(s, f, only, isprint)
    ensures !InDict(only, c) || EscapeChar(c)
  {
    var e := Escape1(s[0], f, only, isprint);
    if c in e {
      if InDict(only, s[0]) {
        TokenChars(s[0], f);
        var i :| 0 <= i < |e| && e[i] == c;
      }
    } else {
      assert c in Escaped(s[1..], f, only, isprint);
      NamedAreGone(s[1..], f, only, isprint, c);
    }
  }

  // ---------------------------------------------------------------- unescaping again

  /** The dictionary names the backslash, so that every backslash of the text begins an escape. */
  predicate Guards(only: seq<Byte>) {
    BACKSLASH in only
  }

  /** A zero in its short form is followed by an octal digit that the dictionary does not name. */
  predicate RunsOn(s: seq<Byte>, i: nat, f: Flags, only: seq<Byte>)
    requires i < |s|
  {
    s[i] == 0 && f.nul && i + 1 < |s| && IsOctal(s[i + 1]) && s[i + 1] !in only
  }

  ghost predicate NoneRunsOn(s: seq<Byte>, f: Flags, only: seq<Byte>) {
    forall i: nat :: i < |s| ==> !RunsOn(s, i, f, only)
  }

  lemma FirstOf(s: seq<Byte>, f: Flags, only: seq<Byte>, isprint: Byte -> bool)
    requires Guards(only) && CatchAll(f)
    ensures var e := Escaped(s, f, only, isprint);
            (e == [] <==> s == []) && (s != [] ==> e[0] == if InDict(only, s[0]) then BACKSLASH else s[0])
  {
    if s != [] && InDict(only, s[0]) { TokenChars(s[0], f); }
  }

  /** Text up to its first backslash was not escaped. */
  lemma {:induction false} PlainPrefix(s: seq<Byte>, j: nat, f: Flags, only: seq<Byte>, isprint: Byte -> bool)
    requires Guards(only) && CatchAll(f) && j <= |Escaped(s, f, only, isprint)|
    requires forall i :: 0 <= i < j ==> Escaped(s, f, only, isprint)[i] != BACKSLASH
    ensures j <= |s| && Escaped(s, f, only, isprint)[j..] == Escaped(s[j..], f, only, isprint)
  {
    var e := Escaped(s, f, only, isprint);
    if j == 0 {
      assert s[0..] == s && e[0..] == e;
    } else {
      var rest := Escaped(s[1..], f, only, isprint);
      FirstOf(s, f, only, isprint);
      assert e == [s[0]] + rest;
      assert forall i :: 0 <= i < j - 1 ==> rest[i] == e[i + 1];
      PlainPrefix(s[1..], j - 1, f, only, isprint);
      assert s[j..] == s[1..][j - 1..] && e[j..] == rest[j - 1..];
    }
  }

  lemma TailRuns(s: seq<Byte>, f: Flags, only: seq<Byte>)
    requires s != []
    ensures NoneRunsOn(s, f, only) <==> !RunsOn(s, 0, f, only) && NoneRunsOn(s[1..], f, only)
  {
    forall i: nat | i < |s[1..]|
      ensures RunsOn(s, i + 1, f, only) <==> RunsOn(s[1..], i, f, only)
    {
    }
    if !RunsOn(s, 0, f, only) && NoneRunsOn(s[1..], f, only) {
      forall i: nat | i < |s|
        ensures !RunsOn(s, i, f, only)
      {
        assert i > 0 ==> !RunsOn(s[1..], i - 1, f, only);
      }
    }
  }

  /** The zero takes the digits that follow with it. */
  lemma TakesDigits(s: seq<Byte>, f: Flags, only: seq<Byte>, isprint: Byte -> bool) returns (k: nat, v: Byte)
    requires Guards(only) && CatchAll(f) && s != [] && RunsOn(s, 0, f, only)
    ensures 1 < k <= |s| && Plain(Escaped(s, f, only, isprint)) == [v] + Plain(Escaped(s[k..], f, only, isprint))
  {
    var e := Escaped(s[1..], f, only, isprint);
    var r := [48] + e;
    FirstOf(s[1..], f, only, isprint);
    assert Escaped(s, f, only, isprint) == [BACKSLASH] + r;
    OctalFromTwo(r);
    MeantTurn(r);
    MeantPlain(r);
    k, v := Meant(r, ANY_CLASS).used, Meant(r, ANY_CLASS).value;
    DigitsAreRaw(s[1..], r, k, f, only, isprint);
    assert s[k..] == s[1..][k - 1..];
  }

  lemma DigitsAreRaw(x: seq<Byte>, r: seq<Byte>, k: nat, f: Flags, only: seq<Byte>, isprint: Byte -> bool)
    requires Guards(only) && CatchAll(f) && r == [48] + Escaped(x, f, only, isprint)
    requires 1 < k <= |r| && forall i :: 0 <= i < k ==> r[i] != BACKSLASH
    ensures k - 1 <= |x| && r[k..] == Escaped(x[k - 1..], f, only, isprint)
  {
    var e := Escaped(x, f, only, isprint);
    assert forall i :: 0 <= i < k - 1 ==> e[i] == r[i + 1];
    PlainPrefix(x, k - 1, f, only, isprint);
    assert r[k..] == e[k - 1..];
  }

  lemma OneByte(s: seq<Byte>, f: Flags, only: seq<Byte>, isprint: Byte -> bool)
    requires Guards(only) && CatchAll(f) && s != [] && !RunsOn(s, 0, f, only)
    ensures Plain(Escaped(s, f, only, isprint)) == [s[0]] + Plain(Escaped(s[1..], f, only, isprint))
  {
    var rest := Escaped(s[1..], f, only, isprint);
    FirstOf(s[1..], f, only, isprint);
    if InDict(only, s[0]) {
      TokenTurn(s[0], f, rest);
    } else {
      RawTurn(s[0], rest);
    }
  }

  /** What comes back is the buffer, or it is shorter. */
  predicate Back(s: seq<Byte>, u: seq<Byte>, whole: bool) {
    if whole then u == s else |u| < |s|
  }

  lemma BackKept(s: seq<Byte>, u: seq<Byte>, whole: bool)
    requires s != [] && Back(s[1..], u, whole)
    ensures Back(s, [s[0]] + u, whole)
  {
    assert s == [s[0]] + s[1..];
  }

  lemma BackLost(s: seq<Byte>, u: seq<Byte>, k: nat, v: Byte, whole: bool)
    requires 1 < k <= |s| && Back(s[k..], u, whole)
    ensures Back(s, [v] + u, false)
  {
  }

  lemma {:induction false} ComesBackOr(s: seq<Byte>, f: Flags, only: seq<Byte>, isprint: Byte -> bool)
    requires Guards(only) && CatchAll(f)
    ensures Back(s, Plain(Escaped(s, f, only, isprint)), NoneRunsOn(s, f, only))
    decreases |s|
  {
    if s != [] {
      TailRuns(s, f, only);
      if RunsOn(s, 0, f, only) {
        var k, v := TakesDigits(s, f, only, isprint);
        ComesBackOr(s[k..], f, only, isprint);
        BackLost(s, Plain(Escaped(s[k..], f, only, isprint)), k, v, NoneRunsOn(s[k..], f, only));
      } else {
        OneByte(s, f, only, isprint);
        ComesBackOr(s[1..], f, only, isprint);
        BackKept(s, Plain(Escaped(s[1..], f, only, isprint)), NoneRunsOn(s[1..], f, only));
      }
    }
  }

  lemma {:induction false} TextLength(s: seq<Byte>, f: Flags, only: seq<Byte>, isprint: Byte -> bool)
    requires Guards(only) && CatchAll(f)
    ensures |Escaped(s, f, only, isprint)| <= 4 * |s| && CString(Escaped(s, f, only, isprint)) == Escaped(s, f, only, isprint)
  {
    if s != [] {
      TextLength(s[1..], f, only, isprint);
      TokenChars(s[0], f);
      NoZero(Escape1(s[0], f, only, isprint), Escaped(s[1..], f, only, isprint));
    }
  }

  /** With a dictionary that names the backslash, a buffer comes back from unescaping exactly if no zero in its short form is
      followed by an octal digit that stays as it is. */
  lemma GuardedSurvivesExactly(s: seq<Byte>, f: Flags, only: seq<Byte>, isprint: Byte -> bool)
    requires Guards(only) && CatchAll(f) && 8 * |s| < SIZE_MAX
    ensures Unescaped(CString(Escaped(s, f, only, isprint)), 0, ANY_CLASS) == s <==> NoneRunsOn(s, f, only)
  {
    TextLength(s, f, only, isprint);
    PlainIs(Escaped(s, f, only, isprint), 0);
    ComesBackOr(s, f, only, isprint);
  }
}
