/** Escaping that leaves printable characters alone: which buffers come back from unescaping. */
module EscapePrintable {
  import opened Escape

  /** isprint() on the ASCII characters; above them it may be anything. */
  ghost predicate Ascii(isprint: Byte -> bool) {
    forall c: Byte :: c < 127 ==> (isprint(c) <==> 32 <= c)
  }

  /** The flags escape whatever is not printable. */
  predicate EscapesRest(f: Flags) {
    f.np && (f.octal || f.hex)
  }

  /** A character that means something after a backslash, with what follows it. */
  predicate Joins(s: seq<Byte>, i: nat)
    requires i < |s|
  {
    SpaceOf(s[i]) != 0 || IsOctal(s[i]) || SpecialOf(s[i]) != 0 || (s[i] == 120 && i + 1 < |s| && HexValue(s[i + 1]) >= 0)
  }

  /** The byte does not run into its successor: a backslash, which is left alone, is followed by something printable that
      means nothing after it; and a zero in its short form is not followed by an octal digit. */
  predicate Apart(s: seq<Byte>, i: nat, f: Flags, isprint: Byte -> bool)
    requires i < |s|
  {
    i + 1 < |s| ==>
      && (s[i] == BACKSLASH ==> isprint(s[i + 1]) && !Joins(s, i + 1))
      && (s[i] == 0 && f.nul ==> !IsOctal(s[i + 1]))
  }

  ghost predicate AllApart(s: seq<Byte>, f: Flags, isprint: Byte -> bool) {
    forall i: nat :: i < |s| ==> Apart(s, i, f, isprint)
  }

  // ---------------------------------------------------------------- unescaping without a limit

  function Plain(t: seq<Byte>): seq<Byte> {
    if t == [] then []
    else
      var u := OneTurn(t, 2, ANY_CLASS);
      u.out + Plain(t[u.read..])
  }

  lemma {:induction false} PlainIs(t: seq<Byte>, size: nat)
    requires Less(size) > 2 * |t|
    ensures Unescaped(t, size, ANY_CLASS) == Plain(t)
    decreases |t|
  {
    if t != [] {
      var u := OneTurn(t, Less(size), ANY_CLASS);
      PlainIs(t[u.read..], u.size);
    }
  }

  // ---------------------------------------------------------------- a weight that unescaping does not raise

  /** The number of backslashes and unprintable bytes. */
  function Weight(s: seq<Byte>, isprint: Byte -> bool): nat {
    if s == [] then 0 else (if s[0] == BACKSLASH || !isprint(s[0]) then 1 else 0) + Weight(s[1..], isprint)
  }

  lemma {:induction false} WeightAdds(x: seq<Byte>, y: seq<Byte>, isprint: Byte -> bool)
    ensures Weight(x + y, isprint) == Weight(x, isprint) + Weight(y, isprint)
  {
    if x == [] {
      assert x + y == y;
    } else {
      assert (x + y)[1..] == x[1..] + y;
      WeightAdds(x[1..], y, isprint);
    }
  }

  lemma {:induction false} NoWeight(x: seq<Byte>, isprint: Byte -> bool)
    requires forall i :: 0 <= i < |x| ==> x[i] != BACKSLASH && isprint(x[i])
    ensures Weight(x, isprint) == 0
  {
    if x != [] {
      NoWeight(x[1..], isprint);
    }
  }

  lemma WeightOne(c: Byte, isprint: Byte -> bool)
    ensures Weight([c], isprint) == if c == BACKSLASH || !isprint(c) then 1 else 0
  {
    assert [c][1..] == [];
  }

  lemma WeightHead(t: seq<Byte>, isprint: Byte -> bool)
    requires t != [] && t[0] == BACKSLASH
    ensures Weight(t, isprint) >= 1
  {
  }

  /** A turn writes no more weight than it reads. */
  lemma TurnLight(t: seq<Byte>, isprint: Byte -> bool)
    requires t != []
    ensures var u := OneTurn(t, 2, ANY_CLASS); Weight(u.out, isprint) <= Weight(t[..u.read], isprint)
  {
    var u := OneTurn(t, 2, ANY_CLASS);
    if |u.out| == 1 {
      WeightOne(u.out[0], isprint);
      assert u.out == [u.out[0]];
      if t[0] == BACKSLASH {
        WeightHead(t[..u.read], isprint);
      } else {
        assert t[..u.read] == u.out;
      }
    } else {
      assert t[..u.read] == u.out;
    }
  }

  lemma {:induction false} PlainLight(t: seq<Byte>, isprint: Byte -> bool)
    ensures Weight(Plain(t), isprint) <= Weight(t, isprint)
    decreases |t|
  {
    if t != [] {
      var u := OneTurn(t, 2, ANY_CLASS);
      TurnLight(t, isprint);
      PlainLight(t[u.read..], isprint);
      WeightAdds(u.out, Plain(t[u.read..]), isprint);
      WeightAdds(t[..u.read], t[u.read..], isprint);
      assert t == t[..u.read] + t[u.read..];
    }
  }

  /** After its backslash an escape has no weight. */
  lemma TokenTail(c: Byte, f: Flags, isprint: Byte -> bool)
    requires Ascii(isprint) && EscapesRest(f) && !isprint(c)
    ensures var e := ByClass(c, f);
            |e| >= 2 && e[0] == BACKSLASH && Weight(e[1..], isprint) == 0 && forall i :: 0 <= i < |e| ==> e[i] != 0
  {
    NoWeight(ByClass(c, f)[1..], isprint);
  }

  lemma TokenWeight(c: Byte, f: Flags, isprint: Byte -> bool)
    requires Ascii(isprint) && EscapesRest(f)
    ensures Weight(Escape1(c, f, [], isprint), isprint) == Weight([c], isprint)
  {
    if !isprint(c) {
      TokenTail(c, f, isprint);
      WeightOne(c, isprint);
    }
  }

  lemma {:induction false} EscapedWeight(s: seq<Byte>, f: Flags, isprint: Byte -> bool)
    requires Ascii(isprint) && EscapesRest(f)
    ensures Weight(Escaped(s, f, [], isprint), isprint) == Weight(s, isprint)
  {
    if s != [] {
      TokenWeight(s[0], f, isprint);
      EscapedWeight(s[1..], f, isprint);
      WeightAdds(Escape1(s[0], f, [], isprint), Escaped(s[1..], f, [], isprint), isprint);
      WeightOne(s[0], isprint);
    }
  }

  // ---------------------------------------------------------------- turns on escaped text

  lemma RawTurn(c: Byte, r: seq<Byte>)
    requires c != BACKSLASH
    ensures Plain([c] + r) == [c] + Plain(r)
  {
    assert ([c] + r)[1..] == r;
  }

  lemma MeantTurn(r: seq<Byte>)
    requires r != []
    ensures var m := Meant(r, ANY_CLASS);
            if m.Byte? then m.used <= |r| && Plain([BACKSLASH] + r) == [m.value] + Plain(r[m.used..])
            else Plain([BACKSLASH] + r) == [BACKSLASH, r[0]] + Plain(r[1..])
  {
    var t, m := [BACKSLASH] + r, Meant(r, ANY_CLASS);
    MeantUses(r, ANY_CLASS);
    assert t[1..] == r && t[2..] == r[1..];
    assert m.Byte? ==> t[1 + m.used..] == r[m.used..];
  }

  lemma MeaningTurn(e: seq<Byte>, c: Byte, r: seq<Byte>)
    requires |e| >= 2 && e[0] == BACKSLASH && Meant(e[1..] + r, ANY_CLASS) == Byte(c, |e| - 1)
    ensures Plain(e + r) == [c] + Plain(r)
  {
    var x := e[1..] + r;
    assert e + r == [BACKSLASH] + x && x[|e| - 1..] == r;
    MeantTurn(x);
  }

  lemma TokenTurn(c: Byte, f: Flags, r: seq<Byte>)
    requires (f.octal || f.hex) && (f.nul && c == 0 && r != [] ==> !IsOctal(r[0]))
    ensures Plain(ByClass(c, f) + r) == [c] + Plain(r)
  {
    EscapeMeans(c, f, r);
    MeaningTurn(ByClass(c, f), c, r);
  }

  lemma {:induction false} OctalDigits(r: seq<Byte>, num: Byte, used: nat)
    requires used <= |r|
    ensures OctalFrom(r, num, used).Byte?
    ensures var u := OctalFrom(r, num, used).used; u <= |r| && forall i :: used <= i < u ==> IsOctal(r[i])
    decreases |r| - used
  {
    if num < 32 && used < |r| && IsOctal(r[used]) && used < 3 {
      OctalDigits(r, num * 8 + (r[used] - 48), used + 1);
    }
  }

  /** What a backslash takes with it holds no other backslash. */
  lemma MeantPlain(r: seq<Byte>)
    requires r != [] && r[0] != BACKSLASH && Meant(r, ANY_CLASS).Byte?
    ensures var u := Meant(r, ANY_CLASS).used; u <= |r| && forall i :: 0 <= i < u ==> r[i] != BACKSLASH
  {
    if IsOctal(r[0]) {
      OctalDigits(r, r[0] - 48, 1);
    }
  }

  /** The first character of the escaped text. */
  lemma FirstChar(s: seq<Byte>, f: Flags, isprint: Byte -> bool)
    requires Ascii(isprint) && EscapesRest(f)
    ensures var e := Escaped(s, f, [], isprint);
            && (e == [] <==> s == [])
            && (s != [] ==> e[0] == if isprint(s[0]) then s[0] else BACKSLASH)
  {
    if s != [] && !isprint(s[0]) {
      TokenTail(s[0], f, isprint);
    }
  }

  /** Escaped text up to its first backslash is the text itself. */
  lemma {:induction false} RawPrefix(s: seq<Byte>, j: nat, f: Flags, isprint: Byte -> bool)
    requires Ascii(isprint) && EscapesRest(f) && j <= |Escaped(s, f, [], isprint)|
    requires forall i :: 0 <= i < j ==> Escaped(s, f, [], isprint)[i] != BACKSLASH
    ensures j <= |s| && s[..j] == Escaped(s, f, [], isprint)[..j] && Weight(s[..j], isprint) == 0
    ensures Escaped(s, f, [], isprint)[j..] == Escaped(s[j..], f, [], isprint)
  {
    var e := Escaped(s, f, [], isprint);
    if j == 0 {
      assert s[0..] == s && e[0..] == e;
    } else {
      var rest := Escaped(s[1..], f, [], isprint);
      FirstChar(s, f, isprint);
      assert e == [s[0]] + rest;
      assert forall i :: 0 <= i < j - 1 ==> rest[i] == e[i + 1];
      RawPrefix(s[1..], j - 1, f, isprint);
      assert s[..j] == [s[0]] + s[1..][..j - 1];
      assert s[j..] == s[1..][j - 1..] && e[j..] == rest[j - 1..];
      WeightAdds([s[0]], s[1..][..j - 1], isprint);
      WeightOne(s[0], isprint);
    }
  }

  // ---------------------------------------------------------------- which buffers survive

  /** What comes back is the buffer, or it is lighter, or it is as heavy and shorter. */
  ghost predicate Outcome(s: seq<Byte>, u: seq<Byte>, whole: bool, isprint: Byte -> bool) {
    if whole then u == s
    else Weight(u, isprint) < Weight(s, isprint) || (Weight(u, isprint) == Weight(s, isprint) && |u| < |s|)
  }

  lemma OutcomeKept(a: seq<Byte>, s: seq<Byte>, u: seq<Byte>, whole: bool, isprint: Byte -> bool)
    requires Outcome(s, u, whole, isprint)
    ensures Outcome(a + s, a + u, whole, isprint)
  {
    WeightAdds(a, s, isprint);
    WeightAdds(a, u, isprint);
  }

  lemma OutcomeLost(a: seq<Byte>, o: seq<Byte>, s: seq<Byte>, u: seq<Byte>, whole: bool, isprint: Byte -> bool)
    requires Outcome(s, u, whole, isprint) && Weight(o, isprint) <= Weight(a, isprint) && |o| < |a|
    ensures Outcome(a + s, o + u, false, isprint)
  {
    WeightAdds(a, s, isprint);
    WeightAdds(o, u, isprint);
  }

  lemma ApartTail(s: seq<Byte>, f: Flags, isprint: Byte -> bool)
    requires s != []
    ensures AllApart(s, f, isprint) <==> Apart(s, 0, f, isprint) && AllApart(s[1..], f, isprint)
  {
    forall i: nat | i < |s[1..]|
      ensures Apart(s, i + 1, f, isprint) <==> Apart(s[1..], i, f, isprint)
    {
    }
    if Apart(s, 0, f, isprint) && AllApart(s[1..], f, isprint) {
      forall i: nat | i < |s|
        ensures Apart(s, i, f, isprint)
      {
        assert i > 0 ==> Apart(s[1..], i - 1, f, isprint);
      }
    }
  }

  lemma AfterRaw(s: seq<Byte>, f: Flags, isprint: Byte -> bool)
    requires Ascii(isprint) && EscapesRest(f) && s != [] && isprint(s[0]) && s[0] != BACKSLASH
    requires Outcome(s[1..], Plain(Escaped(s[1..], f, [], isprint)), AllApart(s[1..], f, isprint), isprint)
    ensures Outcome(s, Plain(Escaped(s, f, [], isprint)), AllApart(s, f, isprint), isprint)
  {
    var rest := Escaped(s[1..], f, [], isprint);
    RawTurn(s[0], rest);
    ApartTail(s, f, isprint);
    OutcomeKept([s[0]], s[1..], Plain(rest), AllApart(s[1..], f, isprint), isprint);
    assert s == [s[0]] + s[1..];
  }

  lemma AfterToken(s: seq<Byte>, f: Flags, isprint: Byte -> bool)
    requires Ascii(isprint) && EscapesRest(f) && s != [] && !isprint(s[0])
    requires |s| > 1 && s[0] == 0 && f.nul ==> !IsOctal(s[1])
    requires Outcome(s[1..], Plain(Escaped(s[1..], f, [], isprint)), AllApart(s[1..], f, isprint), isprint)
    ensures Outcome(s, Plain(Escaped(s, f, [], isprint)), AllApart(s, f, isprint), isprint)
  {
    var rest := Escaped(s[1..], f, [], isprint);
    FirstChar(s[1..], f, isprint);
    TokenTurn(s[0], f, rest);
    ApartTail(s, f, isprint);
    OutcomeKept([s[0]], s[1..], Plain(rest), AllApart(s[1..], f, isprint), isprint);
    assert s == [s[0]] + s[1..];
  }

  /** A zero in its short form takes the octal digits that follow with it. */
  lemma ZeroJoins(s: seq<Byte>, f: Flags, isprint: Byte -> bool) returns (k: nat, v: Byte)
    requires Ascii(isprint) && EscapesRest(f) && |s| > 1 && s[0] == 0 && f.nul && IsOctal(s[1])
    ensures 1 < k <= |s| && Plain(Escaped(s, f, [], isprint)) == [v] + Plain(Escaped(s[k..], f, [], isprint))
    ensures Weight(s[..k], isprint) == 1
  {
    var e := Escaped(s[1..], f, [], isprint);
    var r := [48] + e;
    FirstChar(s[1..], f, isprint);
    assert Escaped(s, f, [], isprint) == [BACKSLASH] + r;
    OctalFromTwo(r);
    MeantTurn(r);
    MeantPlain(r);
    k, v := Meant(r, ANY_CLASS).used, Meant(r, ANY_CLASS).value;
    DigitsTaken(s[1..], r, k, f, isprint);
    assert s[k..] == s[1..][k - 1..];
    HeadWeight(s, k, isprint);
  }

  lemma DigitsTaken(x: seq<Byte>, r: seq<Byte>, k: nat, f: Flags, isprint: Byte -> bool)
    requires Ascii(isprint) && EscapesRest(f) && r == [48] + Escaped(x, f, [], isprint)
    requires 1 < k <= |r| && forall i :: 0 <= i < k ==> r[i] != BACKSLASH
    ensures k - 1 <= |x| && r[k..] == Escaped(x[k - 1..], f, [], isprint) && Weight(x[..k - 1], isprint) == 0
  {
    var e := Escaped(x, f, [], isprint);
    assert forall i :: 0 <= i < k - 1 ==> e[i] == r[i + 1];
    RawPrefix(x, k - 1, f, isprint);
    assert r[k..] == e[k - 1..];
  }

  lemma OctalFromTwo(r: seq<Byte>)
    requires |r| > 1 && r[0] == 48 && IsOctal(r[1])
    ensures Meant(r, ANY_CLASS).Byte? && Meant(r, ANY_CLASS).used >= 2
  {
    OctalUses(r, r[1] - 48, 2);
  }

  lemma HeadWeight(s: seq<Byte>, k: nat, isprint: Byte -> bool)
    requires 0 < k <= |s| && (s[0] == BACKSLASH || !isprint(s[0])) && Weight(s[1..][..k - 1], isprint) == 0
    ensures Weight(s[..k], isprint) == 1
  {
    assert s[..k] == [s[0]] + s[1..][..k - 1];
    WeightAdds([s[0]], s[1..][..k - 1], isprint);
    WeightOne(s[0], isprint);
  }

  /** A backslash takes what means something after it along. */
  lemma BackslashJoins(s: seq<Byte>, f: Flags, isprint: Byte -> bool) returns (k: nat, v: Byte)
    requires Ascii(isprint) && EscapesRest(f) && |s| > 1 && s[0] == BACKSLASH && isprint(s[1]) && s[1] != BACKSLASH
    requires Meant(Escaped(s[1..], f, [], isprint), ANY_CLASS).Byte?
    ensures 1 < k <= |s| && Plain(Escaped(s, f, [], isprint)) == [v] + Plain(Escaped(s[k..], f, [], isprint))
    ensures Weight(s[..k], isprint) == 1
  {
    var r := Escaped(s[1..], f, [], isprint);
    FirstChar(s[1..], f, isprint);
    assert Escaped(s, f, [], isprint) == [BACKSLASH] + r;
    MeantTurn(r);
    MeantPlain(r);
    MeantUses(r, ANY_CLASS);
    k, v := 1 + Meant(r, ANY_CLASS).used, Meant(r, ANY_CLASS).value;
    RawPrefix(s[1..], k - 1, f, isprint);
    assert s[k..] == s[1..][k - 1..];
    HeadWeight(s, k, isprint);
  }

  /** A backslash before another one, or before an escape, takes that one's backslash along. */
  lemma BackslashDoubled(s: seq<Byte>, f: Flags, isprint: Byte -> bool)
    requires Ascii(isprint) && EscapesRest(f) && |s| > 1 && s[0] == BACKSLASH && (s[1] == BACKSLASH || !isprint(s[1]))
    ensures Outcome(s, Plain(Escaped(s, f, [], isprint)), AllApart(s, f, isprint), isprint)
  {
    var r := Escaped(s[1..], f, [], isprint);
    FirstChar(s[1..], f, isprint);
    assert Escaped(s, f, [], isprint) == [BACKSLASH] + r;
    DoubledLight(r, isprint);
    EscapedWeight(s[1..], f, isprint);
    assert !Apart(s, 0, f, isprint);
  }

  lemma DoubledLight(r: seq<Byte>, isprint: Byte -> bool)
    requires r != [] && r[0] == BACKSLASH
    ensures Weight(Plain([BACKSLASH] + r), isprint) <= Weight(r, isprint)
  {
    assert Meant(r, ANY_CLASS) == Byte(BACKSLASH, 1);
    MeantTurn(r);
    PlainLight(r[1..], isprint);
    WeightAdds([BACKSLASH], Plain(r[1..]), isprint);
    WeightOne(BACKSLASH, isprint);
  }

  /** Whether the backslash means something with the text after it can be read off the buffer. */
  lemma MeantIsJoins(s: seq<Byte>, f: Flags, isprint: Byte -> bool)
    requires Ascii(isprint) && EscapesRest(f) && |s| > 1 && isprint(s[1]) && s[1] != BACKSLASH
    ensures Escaped(s[1..], f, [], isprint) != []
            && (Meant(Escaped(s[1..], f, [], isprint), ANY_CLASS).Byte? <==> Joins(s, 1))
  {
    var x := s[1..];
    var r := Escaped(x, f, [], isprint);
    FirstChar(x, f, isprint);
    FirstChar(x[1..], f, isprint);
    assert r == [x[0]] + Escaped(x[1..], f, [], isprint);
    if IsOctal(r[0]) {
      OctalUses(r, r[0] - 48, 1);
    }
    assert |x| > 1 ==> x[1] == s[2] && x[1..][0] == s[2];
  }

  lemma AfterBackslash(s: seq<Byte>, f: Flags, isprint: Byte -> bool)
    requires Ascii(isprint) && EscapesRest(f) && |s| > 1 && s[0] == BACKSLASH && isprint(s[1])
             && s[1] != BACKSLASH && !Joins(s, 1)
    requires Outcome(s[2..], Plain(Escaped(s[2..], f, [], isprint)), AllApart(s[2..], f, isprint), isprint)
    ensures Outcome(s, Plain(Escaped(s, f, [], isprint)), AllApart(s, f, isprint), isprint)
  {
    var r := Escaped(s[1..], f, [], isprint);
    FirstChar(s[1..], f, isprint);
    assert Escaped(s, f, [], isprint) == [BACKSLASH] + r;
    MeantIsJoins(s, f, isprint);
    MeantTurn(r);
    RawPrefix(s[1..], 1, f, isprint);
    assert s[1..][1..] == s[2..] && s == [BACKSLASH, s[1]] + s[2..];
    ApartTail(s, f, isprint);
    ApartTail(s[1..], f, isprint);
    assert Apart(s[1..], 0, f, isprint);
    OutcomeKept([BACKSLASH, s[1]], s[2..], Plain(r[1..]), AllApart(s[2..], f, isprint), isprint);
  }

  lemma Alone(f: Flags, isprint: Byte -> bool)
    requires Ascii(isprint) && EscapesRest(f)
    ensures Plain(Escaped([BACKSLASH], f, [], isprint)) == [BACKSLASH] && AllApart([BACKSLASH], f, isprint)
  {
    var s := [BACKSLASH];
    assert s[1..] == [];
    assert Escaped(s, f, [], isprint) == s;
    assert OneTurn(s, 2, ANY_CLASS) == Turn(s, 1, 2);
  }

  lemma {:induction false} ComesBack(s: seq<Byte>, f: Flags, isprint: Byte -> bool)
    requires Ascii(isprint) && EscapesRest(f)
    ensures Outcome(s, Plain(Escaped(s, f, [], isprint)), AllApart(s, f, isprint), isprint)
    decreases |s|
  {
    if s == [] {
    } else if s == [BACKSLASH] {
      Alone(f, isprint);
    } else if s[0] == BACKSLASH && (s[1] == BACKSLASH || !isprint(s[1])) {
      BackslashDoubled(s, f, isprint);
    } else if s[0] == BACKSLASH && !Joins(s, 1) {
      ComesBack(s[2..], f, isprint);
      AfterBackslash(s, f, isprint);
    } else if s[0] == BACKSLASH {
      MeantIsJoins(s, f, isprint);
      var k, v := BackslashJoins(s, f, isprint);
      ComesBack(s[k..], f, isprint);
      AfterLoss(s, k, v, f, isprint);
    } else if s[0] == 0 && f.nul && |s| > 1 && IsOctal(s[1]) {
      var k, v := ZeroJoins(s, f, isprint);
      ComesBack(s[k..], f, isprint);
      AfterLoss(s, k, v, f, isprint);
    } else {
      ComesBack(s[1..], f, isprint);
      if isprint(s[0]) {
        AfterRaw(s, f, isprint);
      } else {
        AfterToken(s, f, isprint);
      }
    }
  }

  lemma AfterLoss(s: seq<Byte>, k: nat, v: Byte, f: Flags, isprint: Byte -> bool)
    requires 1 < k <= |s| && !Apart(s, 0, f, isprint) && Weight(s[..k], isprint) == 1
    requires Outcome(s[k..], Plain(Escaped(s[k..], f, [], isprint)), AllApart(s[k..], f, isprint), isprint)
    requires Plain(Escaped(s, f, [], isprint)) == [v] + Plain(Escaped(s[k..], f, [], isprint))
    ensures Outcome(s, Plain(Escaped(s, f, [], isprint)), AllApart(s, f, isprint), isprint)
  {
    WeightOne(v, isprint);
    OutcomeLost(s[..k], [v], s[k..], Plain(Escaped(s[k..], f, [], isprint)), AllApart(s[k..], f, isprint), isprint);
    assert s == s[..k] + s[k..];
  }

  lemma {:induction false} EscapedLength(s: seq<Byte>, f: Flags, isprint: Byte -> bool)
    requires Ascii(isprint) && EscapesRest(f)
    ensures |Escaped(s, f, [], isprint)| <= 4 * |s| && CString(Escaped(s, f, [], isprint)) == Escaped(s, f, [], isprint)
  {
    if s != [] {
      EscapedLength(s[1..], f, isprint);
      if !isprint(s[0]) {
        TokenTail(s[0], f, isprint);
      }
      NoZero(Escape1(s[0], f, [], isprint), Escaped(s[1..], f, [], isprint));
    }
  }

  /** Exactly the buffers in which no byte runs into its successor come back. */
  lemma SurvivesExactly(s: seq<Byte>, f: Flags, isprint: Byte -> bool)
    requires Ascii(isprint) && EscapesRest(f) && 8 * |s| < SIZE_MAX
    ensures RoundTrips(s, f, isprint) <==> AllApart(s, f, isprint)
  {
    EscapedLength(s, f, isprint);
    PlainIs(Escaped(s, f, [], isprint), 0);
    ComesBack(s, f, isprint);
  }
}
