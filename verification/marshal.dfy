/**
  How a Python `str` reaches a C `const char*` parameter.

  The library's functions are called through ctypes without declared
  argument types. ctypes then passes a `str` as a pointer to a NUL-terminated
  `wchar_t` array, which on Linux is UTF-32 in the machine's (little-endian)
  byte order. `create_device` reads that memory as a narrow C string, so
  `strcpy` stops at the first zero byte, which for any character below U+0100
  is the second byte of the first character. `WideArg` models that as-written
  marshalling; `Utf8Arg` models the evidently intended one (`name.encode()`),
  and is what the rest of the model uses.
 */
module Marshal {
  import opened CTypes

  /*** As written: UTF-32LE wide string ***/

  /** One `wchar_t`: the code point as four little-endian bytes. Code points
      stop at U+10FFFF, so the high byte is always zero. */
  function WideChar(c: char): (b: seq<byte>)
    ensures |b| == 4 && b[3] == 0
  {
    var n := c as int;
    [(n % 0x100) as byte, (n / 0x100 % 0x100) as byte, (n / 0x1_0000 % 0x100) as byte, (n / 0x100_0000) as byte]
  }

  /** The memory a `str` argument points to when ctypes passes it as `wchar_t*`. */
  function WideArg(s: string): (m: seq<byte>)
    ensures |m| == 4 * |s| + 4
    ensures m[|m| - 4..] == [0, 0, 0, 0]
    ensures 0 in m
  {
    if |s| == 0 then [0, 0, 0, 0]
    else
      var m := WideChar(s[0]) + WideArg(s[1..]);
      assert m[|m| - 1] == 0;
      m
  }

  /** A C string ends at the first NUL, so memory after it is never read. */
  lemma {:induction false} CStringAppend(a: seq<byte>, b: seq<byte>)
    requires 0 in a
    ensures CString(a + b) == CString(a)
    decreases |a|
  {
    assert (a + b)[0] == a[0];
    if a[0] != 0 {
      assert (a + b)[1..] == a[1..] + b;
      CStringAppend(a[1..], b);
    }
  }

  /** The narrow string the C side reads from a wide argument lies within the
      first character: the bytes of its code point up to the first zero byte,
      at most three of them. A character below U+0100 leaves just its own code. */
  lemma WideArgTruncates(s: string)
    requires |s| > 0
    ensures 0 in WideArg(s) && 0 in WideChar(s[0])
    ensures CString(WideArg(s)) == CString(WideChar(s[0]))
    ensures |CString(WideArg(s))| <= 3 && CString(WideArg(s)) <= WideChar(s[0])
    ensures 0 < s[0] as int < 0x100 ==> CString(WideArg(s)) == [s[0] as int as byte]
  {
    var w := WideChar(s[0]);
    assert w[3] == 0;
    assert WideArg(s) == w + WideArg(s[1..]);
    CStringAppend(w, WideArg(s[1..]));
    if 0 < s[0] as int < 0x100 {
      WideCharLatin1(s[0]);
      assert w[1..][0] == 0;
      assert CString(w[1..]) == [];
    }
  }

  /** A character beyond Latin-1 keeps the low bytes of its code point:
      U+4E2D reaches the C side as the two bytes 0x2D, 0x4E. */
  lemma WideArgWideChar()
    ensures CString(WideArg("\U{4E2D}")) == [0x2D, 0x4E]
  {
    WideArgTruncates("\U{4E2D}");
    var w := WideChar('\U{4E2D}');
    assert w == [0x2D, 0x4E, 0, 0];
    assert w[1..][1..][0] == 0;
  }

  /** A character below U+0100 is its own code followed by three zero bytes. */
  lemma WideCharLatin1(c: char)
    requires c as int < 0x100
    ensures WideChar(c) == [c as int as byte, 0, 0, 0]
  {
  }

  /*** Intended: UTF-8 bytes ***/

  /** The UTF-8 encoding of one Unicode scalar value. */
  function Utf8Char(c: char): (b: seq<byte>)
    ensures 1 <= |b| <= 4
    ensures c as int != 0 ==> 0 !in b
    ensures c as int < 0x80 <==> |b| == 1
    ensures c as int < 0x80 ==> b == [c as int as byte]
  {
    var n := c as int;
    if n < 0x80 then
      [n as byte]
    else if n < 0x800 then
      [(0xC0 + n / 0x40) as byte, (0x80 + n % 0x40) as byte]
    else if n < 0x1_0000 then
      [(0xE0 + n / 0x1000) as byte, (0x80 + n / 0x40 % 0x40) as byte, (0x80 + n % 0x40) as byte]
    else
      [(0xF0 + n / 0x4_0000) as byte, (0x80 + n / 0x1000 % 0x40) as byte,
       (0x80 + n / 0x40 % 0x40) as byte, (0x80 + n % 0x40) as byte]
  }

  function Utf8(s: string): (b: seq<byte>)
    ensures |b| >= |s|
  {
    if |s| == 0 then [] else Utf8Char(s[0]) + Utf8(s[1..])
  }

  /** Only the NUL character encodes to a zero byte. */
  lemma {:induction false} Utf8NoNul(s: string)
    requires forall i :: 0 <= i < |s| ==> s[i] != '\0'
    ensures 0 !in Utf8(s)
    decreases |s|
  {
    if |s| > 0 {
      assert s[0] != '\0';
      Utf8NoNul(s[1..]);
    }
  }

  lemma {:induction false} Utf8Append(a: string, b: string)
    ensures Utf8(a + b) == Utf8(a) + Utf8(b)
    decreases |a|
  {
    if |a| == 0 {
      assert a + b == b;
    } else {
      var c := Utf8Char(a[0]);
      assert (a + b)[0] == a[0];
      assert (a + b)[1..] == a[1..] + b;
      Utf8Append(a[1..], b);
      calc {
        Utf8(a + b);
        c + Utf8(a[1..] + b);
        c + (Utf8(a[1..]) + Utf8(b));
        (c + Utf8(a[1..])) + Utf8(b);
      }
    }
  }

  predicate Ascii(s: string)
  {
    forall i :: 0 <= i < |s| ==> s[i] as int < 0x80
  }

  /** On ASCII text UTF-8 is one byte per character, the character's own code. */
  lemma {:induction false} Utf8Ascii(s: string)
    requires Ascii(s)
    ensures |Utf8(s)| == |s|
    ensures forall i :: 0 <= i < |s| ==> Utf8(s)[i] as int == s[i] as int
    decreases |s|
  {
    if |s| > 0 {
      Utf8Ascii(s[1..]);
      assert Utf8(s) == [s[0] as int as byte] + Utf8(s[1..]);
      forall i | 1 <= i < |s|
        ensures Utf8(s)[i] as int == s[i] as int
      {
        assert Utf8(s)[i] == Utf8(s[1..])[i - 1];
        assert s[i] == s[1..][i - 1];
      }
    }
  }

  /** Different ASCII strings encode differently. */
  lemma Utf8AsciiInjective(a: string, b: string)
    requires Ascii(a) && Ascii(b) && a != b
    ensures Utf8(a) != Utf8(b)
  {
    Utf8Ascii(a);
    Utf8Ascii(b);
  }

  /** The intended argument: UTF-8 bytes followed by a NUL, as `name.encode()` gives. */
  function Utf8Arg(s: string): (m: seq<byte>)
    ensures 0 in m
  {
    Utf8(s) + [0]
  }

  /** Without an embedded NUL, the C side reads back exactly the UTF-8 text. */
  lemma Utf8ArgRoundTrip(s: string)
    requires forall i :: 0 <= i < |s| ==> s[i] != '\0'
    ensures CString(Utf8Arg(s)) == Utf8(s)
  {
    Utf8NoNul(s);
    var r := CString(Utf8Arg(s));
    assert |r| == |Utf8(s)|;
  }
}
