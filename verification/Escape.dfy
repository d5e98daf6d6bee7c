/** Byte escaping and unescaping: what string_escape_mem() and string_unescape() compute. A C string is given without its
    terminating zero. */
module Escape {

  type Byte = b: nat | b < 256

  const BACKSLASH: Byte := 92

  /** The ESCAPE_ flags: the classes, and whether printable characters are left alone. */
  datatype Flags = Flags(space: bool, special: bool, nul: bool, octal: bool, hex: bool, np: bool)

  // ---------------------------------------------------------------- escaping

  /** The letter for a control character, or 0. */
  function SpaceLetter(c: Byte): Byte {
    if c == 10 then 110 else if c == 13 then 114 else if c == 9 then 116 else if c == 11 then 118 else if c == 12 then 102 else 0
  }

  function SpecialLetter(c: Byte): Byte {
    if c == BACKSLASH then BACKSLASH else if c == 7 then 97 else if c == 27 then 101 else 0
  }

  function HexDigit(d: nat): Byte
    requires d < 16
  {
    if d < 10 then 48 + d else 97 + d - 10
  }

  function OctalEscape(c: Byte): seq<Byte> {
    [BACKSLASH, c / 64 + 48, c / 8 % 8 + 48, c % 8 + 48]
  }

  function HexEscape(c: Byte): seq<Byte> {
    [BACKSLASH, 120, HexDigit(c / 16), HexDigit(c % 16)]
  }

  /** The escape of a character by the first class that takes it, else the character itself. */
  function ByClass(c: Byte, f: Flags): seq<Byte> {
    if f.space && SpaceLetter(c) != 0 then [BACKSLASH, SpaceLetter(c)]
    else if f.special && SpecialLetter(c) != 0 then [BACKSLASH, SpecialLetter(c)]
    else if f.nul && c == 0 then [BACKSLASH, 48]
    else if f.octal then OctalEscape(c)
    else if f.hex then HexEscape(c)
    else [c]
  }

  /** strchr() also finds the terminating zero. */
  predicate InDict(only: seq<Byte>, c: Byte) {
    c == 0 || c in only
  }

  function Escape1(c: Byte, f: Flags, only: seq<Byte>, isprint: Byte -> bool): seq<Byte> {
    if (f.np && isprint(c)) || (only != [] && !InDict(only, c)) then [c] else ByClass(c, f)
  }

  function Escaped(s: seq<Byte>, f: Flags, only: seq<Byte>, isprint: Byte -> bool): seq<Byte> {
    if s == [] then [] else Escape1(s[0], f, only, isprint) + Escaped(s[1..], f, only, isprint)
  }

  lemma {:induction false} EscapedMore(s: seq<Byte>, c: Byte, f: Flags, only: seq<Byte>, isprint: Byte -> bool)
    ensures Escaped(s + [c], f, only, isprint) == Escaped(s, f, only, isprint) + Escape1(c, f, only, isprint)
  {
    if s == [] {
      assert (s + [c])[1..] == [];
    } else {
      assert (s + [c])[1..] == s[1..] + [c];
      EscapedMore(s[1..], c, f, only, isprint);
    }
  }

  // ---------------------------------------------------------------- unescaping

  predicate IsOctal(c: Byte) {
    48 <= c <= 55
  }

  /** hex_to_bin(), -1 for no digit. */
  function HexValue(c: Byte): int {
    if 48 <= c <= 57 then c - 48 else if 97 <= c <= 102 then c - 87 else if 65 <= c <= 70 then c - 55 else -1
  }

  function SpaceOf(c: Byte): Byte {
    if c == 110 then 10 else if c == 114 then 13 else if c == 116 then 9 else if c == 118 then 11 else if c == 102 then 12 else 0
  }

  function SpecialOf(c: Byte): Byte {
    if c == 34 then 34 else if c == BACKSLASH then BACKSLASH else if c == 97 then 7 else if c == 101 then 27 else 0
  }

  /** What follows a backslash: the byte meant and how many characters were used, or nothing. */
  datatype Meaning = None | Byte(value: Byte, used: nat)

  /** The loop of unescape_octal(): at most three digits, and no further once the value is 32. */
  function OctalFrom(s: seq<Byte>, num: Byte, used: nat): Meaning
    requires used <= |s|
    decreases |s| - used
  {
    if num < 32 && used < |s| && IsOctal(s[used]) && used < 3 then OctalFrom(s, num * 8 + (s[used] - 48), used + 1)
    else Byte(num, used)
  }

  function UnescapeHex(s: seq<Byte>): Meaning {
    if |s| < 2 || s[0] != 120 || HexValue(s[1]) < 0 then None
    else if |s| > 2 && HexValue(s[2]) >= 0 then Byte(HexValue(s[1]) * 16 + HexValue(s[2]), 3)
    else Byte(HexValue(s[1]), 2)
  }

  /** The UNESCAPE_ flags. */
  datatype Unflags = Unflags(space: bool, octal: bool, hex: bool, special: bool)

  const ANY_CLASS := Unflags(true, true, true, true)

  function Meant(s: seq<Byte>, f: Unflags): Meaning
    requires s != []
  {
    if f.space && SpaceOf(s[0]) != 0 then Byte(SpaceOf(s[0]), 1)
    else if f.octal && IsOctal(s[0]) then OctalFrom(s, s[0] - 48, 1)
    else if f.hex && UnescapeHex(s) != None then UnescapeHex(s)
    else if f.special && SpecialOf(s[0]) != 0 then Byte(SpecialOf(s[0]), 1)
    else None
  }

  lemma {:induction false} OctalUses(s: seq<Byte>, num: Byte, used: nat)
    requires used <= |s|
    ensures OctalFrom(s, num, used).Byte? && used <= OctalFrom(s, num, used).used <= |s|
    decreases |s| - used
  {
    if num < 32 && used < |s| && IsOctal(s[used]) && used < 3 {
      OctalUses(s, num * 8 + (s[used] - 48), used + 1);
    }
  }

  lemma MeantUses(s: seq<Byte>, f: Unflags)
    requires s != []
    ensures Meant(s, f).Byte? ==> 1 <= Meant(s, f).used <= |s|
  {
    if IsOctal(s[0]) {
      OctalUses(s, s[0] - 48, 1);
    }
  }

  const SIZE_MAX: nat := 0xffff_ffff_ffff_ffff

  /** --size, where 0 wraps: a size of 0 means no limit. */
  function Less(size: nat): nat {
    if size == 0 then SIZE_MAX else size - 1
  }

  /** One turn of string_unescape(): what it writes, how much it reads, and the size left. */
  datatype Turn = Turn(out: seq<Byte>, read: nat, size: nat)

  function OneTurn(s: seq<Byte>, size: nat, f: Unflags): (t: Turn)
    requires s != []
    ensures 1 <= t.read <= |s| && 1 <= |t.out| <= t.read
  {
    if s[0] == BACKSLASH && |s| > 1 && size > 1 then
      MeantUses(s[1..], f);
      match Meant(s[1..], f)
      case Byte(v, used) => Turn([v], 1 + used, size - 1)
      case None => Turn([BACKSLASH, s[1]], 2, size - 1)
    else Turn([s[0]], 1, size)
  }

  function Unescaped(s: seq<Byte>, size: nat, f: Unflags): seq<Byte>
    decreases |s|
  {
    if s == [] || Less(size) == 0 then []
    else
      var t := OneTurn(s, Less(size), f);
      t.out + Unescaped(s[t.read..], t.size, f)
  }

  /** The string up to its first zero. */
  function CString(s: seq<Byte>): seq<Byte> {
    if s == [] || s[0] == 0 then [] else [s[0]] + CString(s[1..])
  }

  /** The result is never longer than the string, and fits the buffer with its terminating zero. */
  lemma {:induction false} UnescapedFits(s: seq<Byte>, size: nat, f: Unflags)
    ensures |Unescaped(s, size, f)| <= |s|
    ensures size > 0 ==> |Unescaped(s, size, f)| < size
    decreases |s|
  {
    if s != [] && Less(size) != 0 {
      var t := OneTurn(s, Less(size), f);
      UnescapedFits(s[t.read..], t.size, f);
    }
  }

  // ---------------------------------------------------------------- round trip

  /** Every byte is escaped. */
  ghost predicate CatchAll(f: Flags) {
    (f.octal || f.hex) && !f.np
  }

  lemma OctalOf(c: Byte, rest: seq<Byte>)
    ensures Meant(OctalEscape(c)[1..] + rest, ANY_CLASS) == Byte(c, 3)
  {
    var a, b, d: nat := c / 64, c / 8 % 8, c % 8;
    var s := OctalEscape(c)[1..] + rest;
    assert s[0] == a + 48 && s[1] == b + 48 && s[2] == d + 48;
    assert c == (a * 8 + b) * 8 + d;
    assert OctalFrom(s, a, 1) == OctalFrom(s, a * 8 + b, 2);
    assert OctalFrom(s, a * 8 + b, 2) == OctalFrom(s, c, 3);
  }

  lemma HexOf(c: Byte, rest: seq<Byte>)
    ensures Meant(HexEscape(c)[1..] + rest, ANY_CLASS) == Byte(c, 3)
  {
    var s := HexEscape(c)[1..] + rest;
    assert s[0] == 120 && s[1] == HexDigit(c / 16) && s[2] == HexDigit(c % 16);
    assert c == c / 16 * 16 + c % 16;
  }

  /** One escape means its byte, unless it is the short form of a zero and an octal digit follows. */
  lemma EscapeMeans(c: Byte, f: Flags, rest: seq<Byte>)
    requires (f.octal || f.hex) && (f.nul && c == 0 && rest != [] ==> !IsOctal(rest[0]))
    ensures var e := ByClass(c, f);
            |e| >= 2 && e[0] == BACKSLASH && (forall i :: 0 <= i < |e| ==> e[i] != 0)
            && Meant(e[1..] + rest, ANY_CLASS) == Byte(c, |e| - 1)
  {
    var e := ByClass(c, f);
    var s := e[1..] + rest;
    if e == [BACKSLASH, 48] {
      assert s[0] == 48;
      assert OctalFrom(s, 0, 1) == Byte(0, 1);
    } else if e == OctalEscape(c) {
      OctalOf(c, rest);
    } else if e == HexEscape(c) {
      HexOf(c, rest);
    } else {
      assert s[0] == e[1];
    }
  }

  /** The size as a number of decrements. */
  function Room(size: nat): nat {
    if size == 0 then SIZE_MAX + 1 else size
  }

  /** Every escape takes two from the size, though it writes one byte. The last one may be cut short where that does not
      show: after a backslash. */
  ghost predicate Enough(s: seq<Byte>, size: nat) {
    Room(size) > 2 * |s| || (s != [] && Room(size) == 2 * |s| && s[|s| - 1] == BACKSLASH)
  }

  lemma {:induction false} EscapedShape(s: seq<Byte>, f: Flags, isprint: Byte -> bool)
    requires CatchAll(f)
    ensures var e := Escaped(s, f, [], isprint);
            (e != [] <==> s != []) && (e != [] ==> e[0] == BACKSLASH) && CString(e) == e
  {
    if s != [] {
      EscapedShape(s[1..], f, isprint);
      EscapeMeans(s[0], f, []);
      var e, rest := ByClass(s[0], f), Escaped(s[1..], f, [], isprint);
      NoZero(e, rest);
    }
  }

  lemma {:induction false} NoZero(x: seq<Byte>, y: seq<Byte>)
    requires CString(y) == y && forall i :: 0 <= i < |x| ==> x[i] != 0
    ensures CString(x + y) == x + y
  {
    if x == [] {
      assert x + y == y;
    } else {
      assert (x + y)[1..] == x[1..] + y;
      NoZero(x[1..], y);
    }
  }

  /** One turn on an escape followed by another or nothing. */
  lemma TurnOnEscape(c: Byte, f: Flags, rest: seq<Byte>, size: nat)
    requires CatchAll(f) && (rest != [] ==> rest[0] == BACKSLASH) && Less(size) > 0
    ensures var u := Unescaped(ByClass(c, f) + rest, size, ANY_CLASS);
            if Less(size) > 1 then u == [c] + Unescaped(rest, Less(size) - 1, ANY_CLASS) else u == [BACKSLASH]
  {
    var e := ByClass(c, f);
    EscapeMeans(c, f, rest);
    var all := e + rest;
    assert all[0] == BACKSLASH && all[1..] == e[1..] + rest;
    if Less(size) > 1 {
      assert OneTurn(all, Less(size), ANY_CLASS) == Turn([c], |e|, Less(size) - 1);
      assert all[|e|..] == rest;
    } else {
      assert OneTurn(all, 1, ANY_CLASS) == Turn([BACKSLASH], 1, 1);
      assert Unescaped(all[1..], 1, ANY_CLASS) == [];
    }
  }

  lemma EnoughStep(s: seq<Byte>, size: nat)
    requires s != [] && Less(size) > 1
    ensures Enough(s, size) <==> Enough(s[1..], Less(size) - 1)
  {
    assert |s| > 1 ==> s[1..][|s| - 2] == s[|s| - 1];
  }

  lemma SameHead(c: Byte, u: seq<Byte>, s: seq<Byte>)
    requires s != [] && s[0] == c
    ensures [c] + u == s <==> u == s[1..]
  {
    assert s == [c] + s[1..];
    assert ([c] + u)[1..] == u;
  }

  /** Unescaping with all classes undoes escaping every byte, exactly when the size is enough. */
  lemma {:induction false} RoundTrip(s: seq<Byte>, size: nat, f: Flags, isprint: Byte -> bool)
    requires CatchAll(f)
    ensures Unescaped(Escaped(s, f, [], isprint), size, ANY_CLASS) == s <==> Enough(s, size)
    decreases |s|
  {
    if s != [] && Less(size) > 0 {
      var rest := Escaped(s[1..], f, [], isprint);
      EscapedShape(s[1..], f, isprint);
      TurnOnEscape(s[0], f, rest, size);
      if Less(size) > 1 {
        RoundTrip(s[1..], Less(size) - 1, f, isprint);
        EnoughStep(s, size);
        SameHead(s[0], Unescaped(rest, Less(size) - 1, ANY_CLASS), s);
      }
    }
  }

  ghost predicate RoundTrips(s: seq<Byte>, f: Flags, isprint: Byte -> bool) {
    Unescaped(CString(Escaped(s, f, [], isprint)), 0, ANY_CLASS) == s
  }

  /** Which flags make escaping reversible for every buffer: those that escape every byte, and no others. */
  lemma ReversibleFlags(f: Flags, isprint: Byte -> bool)
    requires isprint(BACKSLASH) && isprint(110)
    ensures (forall s: seq<Byte> :: 2 * |s| <= SIZE_MAX ==> RoundTrips(s, f, isprint)) <==> CatchAll(f)
  {
    if CatchAll(f) {
      forall s: seq<Byte> | 2 * |s| <= SIZE_MAX
        ensures RoundTrips(s, f, isprint)
      {
        EscapedShape(s, f, isprint);
        RoundTrip(s, 0, f, isprint);
      }
    } else if f.np {
      PrintableFails(f, isprint);
    } else if f.nul {
      ShortNulFails(f, isprint);
    } else {
      RawNulFails(f, isprint);
    }
  }

  lemma EscapedTwo(x: Byte, y: Byte, f: Flags, isprint: Byte -> bool)
    ensures Escaped([x, y], f, [], isprint) == Escape1(x, f, [], isprint) + Escape1(y, f, [], isprint)
  {
    assert [x, y][1..] == [y];
    assert [y][1..] == [];
    assert Escaped([y], f, [], isprint) == Escape1(y, f, [], isprint);
  }

  /** A backslash left alone joins what follows. */
  lemma PrintableFails(f: Flags, isprint: Byte -> bool)
    requires f.np && isprint(BACKSLASH) && isprint(110)
    ensures !RoundTrips([BACKSLASH, 110], f, isprint)
  {
    var s := [BACKSLASH, 110];
    EscapedTwo(BACKSLASH, 110, f, isprint);
    assert Escaped(s, f, [], isprint) == s;
    assert s[1..] == [110] && s[1..][1..] == [];
    assert CString([110]) == [110] + CString([110][1..]);
    assert CString(s) == s;
    assert Meant([110], ANY_CLASS) == Byte(10, 1);
    assert OneTurn(s, Less(0), ANY_CLASS) == Turn([10], 2, SIZE_MAX - 1);
    assert s[2..] == [];
  }

  /** A short zero joins a digit that follows. */
  lemma ShortNulFails(f: Flags, isprint: Byte -> bool)
    requires !f.np && f.nul && !f.octal && !f.hex
    ensures !RoundTrips([0, 49], f, isprint)
  {
    var e := [BACKSLASH, 48, 49];
    EscapedTwo(0, 49, f, isprint);
    assert Escaped([0, 49], f, [], isprint) == e;
    assert e[1..] == [48, 49] && e[1..][1..] == [49] && e[1..][1..][1..] == [];
    assert CString([49]) == [49] + CString([49][1..]);
    assert CString([48, 49]) == [48] + CString([48, 49][1..]);
    assert CString(e) == e;
    assert OctalFrom([48, 49], 0, 1) == OctalFrom([48, 49], 1, 2) == Byte(1, 2);
    assert Meant([48, 49], ANY_CLASS) == Byte(1, 2);
    assert OneTurn(e, Less(0), ANY_CLASS) == Turn([1], 3, SIZE_MAX - 1);
    assert e[3..] == [];
  }

  /** A zero left alone ends the string. */
  lemma RawNulFails(f: Flags, isprint: Byte -> bool)
    requires !f.np && !f.nul && !f.octal && !f.hex
    ensures !RoundTrips([0], f, isprint)
  {
    assert [0][1..] == [];
    assert Escape1(0, f, [], isprint) == [0];
  }

  /** A buffer just large enough for the result is not enough: the size counts the escapes twice. */
  lemma TightBufferCuts(f: Flags, isprint: Byte -> bool)
    requires CatchAll(f)
    ensures Unescaped(Escaped([10], f, [], isprint), 2, ANY_CLASS) != [10]
  {
    RoundTrip([10], 2, f, isprint);
  }

  // ---------------------------------------------------------------- which class is which

  /** The bytes that each class escapes: white space but for the blank; backslash, bell and escape; zero; everything. */
  lemma EscapedExactly(c: Byte, f: Flags)
    ensures ByClass(c, f) != [c] <==>
              f.octal || f.hex || (f.space && 9 <= c <= 13) || (f.special
                  && (c == 92 || c == 7 || c == 27)) || (f.nul && c == 0)
    ensures f.space && 9 <= c <= 13 ==> |ByClass(c, f)| == 2 && ByClass(c, f)[1] == [116, 110, 118, 102, 114][c - 9]
    ensures !(f.space && 9 <= c <= 13) && !(f.special && (c == 92 || c == 7 || c == 27)) && !(f.nul && c == 0)
            && (f.octal || f.hex) ==>
              |ByClass(c, f)| == 4 && (ByClass(c, f)[1] == 120 <==> !f.octal)
  {
  }

  /** The characters that each class gives a meaning after a backslash. */
  lemma MeantExactly(s: seq<Byte>, f: Unflags)
    requires s != []
    ensures Meant(s, f).Byte? <==>
              || (f.space && (s[0] == 110 || s[0] == 114 || s[0] == 116 || s[0] == 118 || s[0] == 102))
              || (f.octal && 48 <= s[0] <= 55) || (f.hex && s[0] == 120 && |s| > 1 && HexValue(s[1]) >= 0)
              || (f.special && (s[0] == 34 || s[0] == 92 || s[0] == 97 || s[0] == 101))
  {
    if f.octal && IsOctal(s[0]) {
      OctalUses(s, s[0] - 48, 1);
    }
  }
}
