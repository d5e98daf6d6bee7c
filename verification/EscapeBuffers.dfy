/** string_escape_mem() into a buffer of any size, and string_unescape() in place and into another buffer. */
module EscapeBuffers {
  import opened Escape

  /** The bytes were written from p on as far as they lie below `end`, and nothing else changed. */
  ghost predicate Emitted(was: seq<Byte>, now: seq<Byte>, p: nat, end: nat, bytes: seq<Byte>) {
    && |now| == |was| && end <= |was|
    && forall k :: 0 <= k < |was| ==> now[k] == if p <= k < p + |bytes| && k < end then bytes[k - p] else was[k]
  }

  /** `if (out < end) *out = c; ++out;` for each byte. */
  method Emit(dst: array<Byte>, p: nat, end: nat, bytes: seq<Byte>) returns (next: nat)
    requires end <= dst.Length
    modifies dst
    ensures next == p + |bytes| && Emitted(old(dst[..]), dst[..], p, end, bytes)
  {
    for i := 0 to |bytes|
      invariant forall k :: 0 <= k < dst.Length ==>
                  dst[k] == if p <= k < p + i && k < end then bytes[k - p] else old(dst[k])
    {
      if p + i < end {
        dst[p + i] := bytes[i];
      }
    }
    next := p + |bytes|;
  }

  /** The five escape_ helpers in the order they are tried, and escape_passthrough(). */
  method EmitEscape(dst: array<Byte>, p: nat, end: nat, c: Byte, f: Flags) returns (next: nat)
    requires end <= dst.Length
    modifies dst
    ensures next == p + |ByClass(c, f)| && Emitted(old(dst[..]), dst[..], p, end, ByClass(c, f))
  {
    if f.space && SpaceLetter(c) != 0 {
      next := Emit(dst, p, end, [BACKSLASH, SpaceLetter(c)]);
    } else if f.special && SpecialLetter(c) != 0 {
      next := Emit(dst, p, end, [BACKSLASH, SpecialLetter(c)]);
    } else if f.nul && c == 0 {
      next := Emit(dst, p, end, [BACKSLASH, 48]);
    } else if f.octal {
      next := Emit(dst, p, end, [BACKSLASH, c / 64 + 48, c / 8 % 8 + 48, c % 8 + 48]);
    } else if f.hex {
      next := Emit(dst, p, end, [BACKSLASH, 120, HexDigit(c / 16), HexDigit(c % 16)]);
    } else {
      next := Emit(dst, p, end, [c]);
    }
  }

  lemma EmittedThen(a: seq<Byte>, b: seq<Byte>, c: seq<Byte>, end: nat, x: seq<Byte>, y: seq<Byte>)
    requires Emitted(a, b, 0, end, x) && Emitted(b, c, |x|, end, y)
    ensures Emitted(a, c, 0, end, x + y)
  {
  }

  /** string_escape_mem(): the length is that of the whole escaped text whatever the buffer's size, the buffer holds as much
      of the text as fits, and nothing is written beyond. */
  method StringEscapeMem(src: seq<Byte>, dst: array<Byte>, osz: nat, f: Flags, only: seq<Byte>, isprint: Byte -> bool)
    returns (r: nat)
    requires osz <= dst.Length
    modifies dst
    ensures var e := Escaped(src, f, only, isprint);
            && r == |e| && Emitted(old(dst[..]), dst[..], 0, osz, e)
            && (osz < r ==> dst[..osz] == e[..osz]) && (osz >= r ==> dst[..r] == e)
  {
    r := 0;
    assert src[..0] == [];
    for i := 0 to |src|
      invariant r == |Escaped(src[..i], f, only, isprint)|
      invariant Emitted(old(dst[..]), dst[..], 0, osz, Escaped(src[..i], f, only, isprint))
    {
      var c := src[i];
      ghost var was, x := dst[..], Escaped(src[..i], f, only, isprint);
      if (f.np && isprint(c)) || (only != [] && !InDict(only, c)) {
        r := Emit(dst, r, osz, [c]);
      } else {
        r := EmitEscape(dst, r, osz, c, f);
      }
      EscapedMore(src[..i], c, f, only, isprint);
      assert src[..i + 1] == src[..i] + [c];
      EmittedThen(old(dst[..]), was, dst[..], osz, x, Escape1(c, f, only, isprint));
    }
    assert src[..|src|] == src;
  }

  // ---------------------------------------------------------------- unescaping in place

  /** From i on, the buffer holds a string that ends at len. */
  ghost predicate StringAt(b: seq<Byte>, i: nat, len: nat) {
    i <= len < |b| && b[len] == 0 && forall k :: i <= k < len ==> b[k] != 0
  }

  /** unescape_octal(): reads no further than the terminating zero. */
  method ReadOctal(buf: array<Byte>, i: nat, ghost len: nat) returns (m: Meaning)
    requires StringAt(buf[..], i, len) && i < len && IsOctal(buf[i])
    ensures m == OctalFrom(buf[i..len], buf[i] - 48, 1)
  {
    var q: nat := i + 1;
    var num: Byte := buf[i] - 48;
    while num < 32 && IsOctal(buf[q]) && q - i < 3
      invariant i < q <= len
      invariant OctalFrom(buf[i..len], num, q - i) == OctalFrom(buf[i..len], buf[i] - 48, 1)
      decreases len - q
    {
      assert buf[i..len][q - i] == buf[q];
      num := num * 8 + (buf[q] - 48);
      q := q + 1;
    }
    m := Meaning.Byte(num, q - i);
  }

  /** unescape_hex(). */
  method ReadHex(buf: array<Byte>, i: nat, ghost len: nat) returns (m: Meaning)
    requires StringAt(buf[..], i, len) && i < len
    ensures m == UnescapeHex(buf[i..len])
  {
    ghost var s := buf[i..len];
    if buf[i] != 120 {
      return None;
    }
    assert buf[i + 1] == 0 <==> i + 1 == len;
    var digit := HexValue(buf[i + 1]);
    if digit < 0 {
      return None;
    }
    assert s[1] == buf[i + 1];
    var num: Byte := digit;
    digit := HexValue(buf[i + 2]);
    if digit >= 0 {
      assert s[2] == buf[i + 2];
      m := Meaning.Byte(num * 16 + digit, 3);
    } else {
      m := Meaning.Byte(num, 2);
    }
  }

  method ReadMeaning(buf: array<Byte>, i: nat, ghost len: nat, f: Unflags) returns (m: Meaning)
    requires StringAt(buf[..], i, len) && i < len
    ensures m == Meant(buf[i..len], f)
  {
    if f.space && SpaceOf(buf[i]) != 0 {
      return Meaning.Byte(SpaceOf(buf[i]), 1);
    }
    if f.octal && IsOctal(buf[i]) {
      m := ReadOctal(buf, i, len);
      return;
    }
    if f.hex {
      m := ReadHex(buf, i, len);
      if m != None {
        return;
      }
    }
    if f.special && SpecialOf(buf[i]) != 0 {
      return Meaning.Byte(SpecialOf(buf[i]), 1);
    }
    m := None;
  }

  /** One turn: what is written lies before what is still to be read. */
  method UnescapeTurn(buf: array<Byte>, out: nat, i: nat, ghost len: nat, size: nat, f: Unflags)
    returns (o: nat, n: nat, z: nat)
    requires out <= i < len && StringAt(buf[..], i, len)
    modifies buf
    ensures var t := OneTurn(old(buf[i..len]), size, f);
            && n == i + t.read && z == t.size && o == out + |t.out| && o <= n
            && buf[..o] == old(buf[..out]) + t.out && buf[n..] == old(buf[n..])
  {
    ghost var s := buf[i..len];
    assert buf[i + 1] == 0 <==> i + 1 == len;
    if buf[i] == BACKSLASH && buf[i + 1] != 0 && size > 1 {
      assert s[1..] == buf[i + 1..len];
      var m := ReadMeaning(buf, i + 1, len, f);
      MeantUses(s[1..], f);
      if m.Byte? {
        buf[out] := m.value;
        o, n := out + 1, i + 1 + m.used;
      } else {
        buf[out] := BACKSLASH;
        buf[out + 1] := buf[i + 1];
        o, n := out + 2, i + 2;
      }
      z := size - 1;
    } else {
      buf[out] := buf[i];
      o, n, z := out + 1, i + 1, size;
    }
  }

  /** Where the loop stands: the text before `out` is done, the string from i on is still as it was, and out is not past i. */
  ghost predicate Progress(b: seq<Byte>, was: seq<Byte>, out: nat, i: nat, len: nat, size: nat, f: Unflags, goal: seq<Byte>) {
    && out <= i <= len < |was| && |b| == |was| && b[i..] == was[i..]
    && b[..out] + Unescaped(was[i..len], size, f) == goal
  }

  lemma ProgressTurn(b: seq<Byte>, c: seq<Byte>, was: seq<Byte>, out: nat, i: nat, len: nat, size: nat, f: Unflags,
      goal: seq<Byte>, o: nat, n: nat)
    requires Progress(b, was, out, i, len, size, f, goal) && i < len && Less(size) != 0
    requires var t := OneTurn(was[i..len], Less(size), f);
             && n == i + t.read && o == out + |t.out| && o <= n && |c| == |b|
             && c[..o] == b[..out] + t.out && c[n..] == b[n..]
    ensures Progress(c, was, o, n, len, OneTurn(was[i..len], Less(size), f).size, f, goal)
  {
    var t := OneTurn(was[i..len], Less(size), f);
    assert was[i..len][t.read..] == was[n..len];
    assert b[n..] == b[i..][t.read..] && was[n..] == was[i..][t.read..];
    assert b[..out] + (t.out + Unescaped(was[n..len], t.size, f)) == b[..out] + t.out + Unescaped(was[n..len], t.size, f);
  }

  /** string_unescape() with the source as its own destination. */
  method StringUnescapeInPlace(buf: array<Byte>, size0: nat, f: Unflags, ghost len: nat) returns (n: nat)
    requires StringAt(buf[..], 0, len)
    modifies buf
    ensures var u := Unescaped(old(buf[..len]), size0, f);
            n == |u| && n <= len && buf[..n] == u && buf[n] == 0
  {
    ghost var was, goal := buf[..], Unescaped(buf[..len], size0, f);
    var i: nat, out: nat, size: nat := 0, 0, size0;
    assert was[0..len] == was[..len] && buf[..0] == [];
    while buf[i] != 0 && Less(size) != 0
      invariant Progress(buf[..], was, out, i, len, size, f, goal) && StringAt(buf[..], i, len)
      decreases len - i
    {
      ghost var b := buf[..];
      ghost var j, p, z := i, out, size;
      assert b[i..len] == b[i..][..len - i] && was[i..len] == was[i..][..len - i];
      out, i, size := UnescapeTurn(buf, out, i, len, Less(size), f);
      ProgressTurn(b, buf[..], was, p, j, len, z, f, goal, out, i);
      StringStill(was, buf[..], i, len);
    }
    assert Unescaped(was[i..len], size, f) == [];
    buf[out] := 0;
    n := out;
  }

  lemma StringStill(was: seq<Byte>, b: seq<Byte>, i: nat, len: nat)
    requires StringAt(was, 0, len) && i <= len && |b| == |was| && b[i..] == was[i..]
    ensures StringAt(b, i, len)
  {
    forall k | i <= k <= len
      ensures b[k] == was[k]
    {
      assert b[k] == b[i..][k - i];
    }
  }

  // ---------------------------------------------------------------- unescaping into another buffer

  method UnescapeTurnInto(src: array<Byte>, dst: array<Byte>, out: nat, i: nat, ghost len: nat, size: nat, f: Unflags)
    returns (o: nat, n: nat, z: nat)
    requires src != dst && i < len && StringAt(src[..], i, len) && out + |OneTurn(src[i..len], size, f).out| <= dst.Length
    modifies dst
    ensures var t := OneTurn(src[i..len], size, f);
            && n == i + t.read && z == t.size && o == out + |t.out|
            && dst[..o] == old(dst[..out]) + t.out && dst[o..] == old(dst[o..])
  {
    ghost var s := src[i..len];
    assert src[i + 1] == 0 <==> i + 1 == len;
    if src[i] == BACKSLASH && src[i + 1] != 0 && size > 1 {
      assert s[1..] == src[i + 1..len];
      var m := ReadMeaning(src, i + 1, len, f);
      MeantUses(s[1..], f);
      if m.Byte? {
        dst[out] := m.value;
        o, n := out + 1, i + 1 + m.used;
      } else {
        dst[out] := BACKSLASH;
        dst[out + 1] := src[i + 1];
        o, n := out + 2, i + 2;
      }
      z := size - 1;
    } else {
      dst[out] := src[i];
      o, n, z := out + 1, i + 1, size;
    }
  }

  /** The text before `out` is done, and `rest` is still to come; beyond, the buffer is as it was. */
  ghost predicate Written(b: seq<Byte>, was: seq<Byte>, out: nat, rest: seq<Byte>, goal: seq<Byte>) {
    out <= |b| == |was| && b[out..] == was[out..] && b[..out] + rest == goal
  }

  lemma RoomForTurn(b: seq<Byte>, was: seq<Byte>, out: nat, s: seq<Byte>, size: nat, f: Unflags, goal: seq<Byte>)
    requires Written(b, was, out, Unescaped(s, size, f), goal) && s != [] && Less(size) != 0
    ensures out + |OneTurn(s, Less(size), f).out| <= |goal|
  {
  }

  lemma WrittenTurn(b: seq<Byte>, c: seq<Byte>, was: seq<Byte>, out: nat, s: seq<Byte>, size: nat, f: Unflags,
      goal: seq<Byte>)
    requires Written(b, was, out, Unescaped(s, size, f), goal) && s != [] && Less(size) != 0
    requires var t := OneTurn(s, Less(size), f); var o := out + |t.out|;
             o <= |c| == |b| && c[..o] == b[..out] + t.out && c[o..] == b[o..]
    ensures var t := OneTurn(s, Less(size), f);
            Written(c, was, out + |t.out|, Unescaped(s[t.read..], t.size, f), goal)
  {
    var t := OneTurn(s, Less(size), f);
    var o, rest := out + |t.out|, Unescaped(s[t.read..], t.size, f);
    assert b[o..] == b[out..][|t.out|..] && was[o..] == was[out..][|t.out|..];
    assert b[..out] + (t.out + rest) == b[..out] + t.out + rest;
  }

  lemma WrittenEnd(b: seq<Byte>, was: seq<Byte>, out: nat, goal: seq<Byte>)
    requires Written(b, was, out, [], goal) && out < |b|
    ensures var c := b[out := 0]; out == |goal| && c[..out] == goal && c[out + 1..] == was[out + 1..]
  {
    assert b[out + 1..] == b[out..][1..] && was[out + 1..] == was[out..][1..];
  }

  /** string_unescape() into another buffer: the text fits with its terminating zero, and nothing beyond is written. */
  method StringUnescape(src: array<Byte>, dst: array<Byte>, size0: nat, f: Unflags, ghost len: nat) returns (n: nat)
    requires src != dst && StringAt(src[..], 0, len) && dst.Length >= if size0 == 0 then len + 1 else size0
    modifies dst
    ensures var u := Unescaped(src[..len], size0, f);
            && n == |u| && (size0 > 0 ==> n < size0) && n < dst.Length
            && dst[..n] == u && dst[n] == 0 && dst[n + 1..] == old(dst[n + 1..])
  {
    ghost var text, was, goal := src[..], dst[..], Unescaped(src[..len], size0, f);
    UnescapedFits(src[..len], size0, f);
    var i: nat, out: nat, size: nat := 0, 0, size0;
    assert text[0..len] == src[..len] && dst[..0] == [];
    while src[i] != 0 && Less(size) != 0
      invariant i <= len && src[..] == text && dst.Length == |was|
      invariant Written(dst[..], was, out, Unescaped(text[i..len], size, f), goal)
      decreases len - i
    {
      ghost var b, p, z, j := dst[..], out, size, i;
      RoomForTurn(b, was, out, text[i..len], size, f, goal);
      assert src[i..len] == text[i..len];
      out, i, size := UnescapeTurnInto(src, dst, out, i, len, Less(size), f);
      WrittenTurn(b, dst[..], was, p, text[j..len], z, f, goal);
      assert text[j..len][i - j..] == text[i..len];
    }
    assert Unescaped(text[i..len], size, f) == [];
    WrittenEnd(dst[..], was, out, goal);
    ghost var b := dst[..];
    dst[out] := 0;
    assert dst[..] == b[out := 0];
    n := out;
  }
}
