/**
 * The Windows-1250 code page and the last step of the Pohoda export: the document is
 * encoded to Windows-1250 with the `backslashreplace` error handler and decoded again, so
 * every character the code page holds is kept and every other one becomes a backslash
 * escape of its code point.
 */
module Codepage {
  import opened Wrappers

  type Byte = b: int | 0 <= b < 256

  /** The characters of bytes 0x80 to 0xFF by code point, in rows of sixteen bytes; -1 marks a byte the code page leaves undefined. */
  const Row0: seq<int> := [0x20AC, -1, 0x201A, -1, 0x201E, 0x2026, 0x2020, 0x2021, -1, 0x2030, 0x0160, 0x2039, 0x015A, 0x0164, 0x017D, 0x0179]
  const Row1: seq<int> := [-1, 0x2018, 0x2019, 0x201C, 0x201D, 0x2022, 0x2013, 0x2014, -1, 0x2122, 0x0161, 0x203A, 0x015B, 0x0165, 0x017E, 0x017A]
  const Row2: seq<int> := [0x00A0, 0x02C7, 0x02D8, 0x0141, 0x00A4, 0x0104, 0x00A6, 0x00A7, 0x00A8, 0x00A9, 0x015E, 0x00AB, 0x00AC, 0x00AD, 0x00AE, 0x017B]
  const Row3: seq<int> := [0x00B0, 0x00B1, 0x02DB, 0x0142, 0x00B4, 0x00B5, 0x00B6, 0x00B7, 0x00B8, 0x0105, 0x015F, 0x00BB, 0x013D, 0x02DD, 0x013E, 0x017C]
  const Row4: seq<int> := [0x0154, 0x00C1, 0x00C2, 0x0102, 0x00C4, 0x0139, 0x0106, 0x00C7, 0x010C, 0x00C9, 0x0118, 0x00CB, 0x011A, 0x00CD, 0x00CE, 0x010E]
  const Row5: seq<int> := [0x0110, 0x0143, 0x0147, 0x00D3, 0x00D4, 0x0150, 0x00D6, 0x00D7, 0x0158, 0x016E, 0x00DA, 0x0170, 0x00DC, 0x00DD, 0x0162, 0x00DF]
  const Row6: seq<int> := [0x0155, 0x00E1, 0x00E2, 0x0103, 0x00E4, 0x013A, 0x0107, 0x00E7, 0x010D, 0x00E9, 0x0119, 0x00EB, 0x011B, 0x00ED, 0x00EE, 0x010F]
  const Row7: seq<int> := [0x0111, 0x0144, 0x0148, 0x00F3, 0x00F4, 0x0151, 0x00F6, 0x00F7, 0x0159, 0x016F, 0x00FA, 0x0171, 0x00FC, 0x00FD, 0x0163, 0x02D9]
  const HighTable: seq<int> := Row0 + Row1 + Row2 + Row3 + Row4 + Row5 + Row6 + Row7

  /** The code points Dafny's char can hold: Unicode scalar values. */
  predicate IsScalar(v: int) {
    0 <= v < 0xD800 || 0xE000 <= v < 0x11_0000
  }

  /** Decoding one byte: ASCII below 0x80, the table above; an undefined byte has no character. */
  function DecodeByte(b: Byte): (r: Option<char>)
  {
    if b < 128 then Some(b as char)
    else
      var v := HighTable[b - 128];
      if IsScalar(v) then Some(v as char) else None
  }

  /** A byte below 0x80 is its ASCII character, one above stands for its table entry, and an undefined one for nothing. */
  lemma DecodeByteTable(b: Byte)
    ensures b < 128 ==> DecodeByte(b) == Some(b as char)
    ensures b >= 128 && DecodeByte(b).Some? ==> DecodeByte(b).value as int == HighTable[b - 128]
    ensures b >= 128 && HighTable[b - 128] == -1 ==> DecodeByte(b).None?
  {
  }

  /** The first position of x in t at or after k, if any. */
  function IndexOf(t: seq<int>, x: int, k: nat): (r: Option<nat>)
    requires k <= |t|
    ensures r.Some? ==> k <= r.value < |t| && t[r.value] == x
    ensures r.None? ==> forall j | k <= j < |t| :: t[j] != x
    decreases |t| - k
  {
    if k == |t| then None else if t[k] == x then Some(k) else IndexOf(t, x, k + 1)
  }

  /** Windows-1250 holds c: it is ASCII or one of the table's characters. */
  predicate InCodePage(c: char) {
    c as int < 128 || c as int in HighTable
  }

  /** Every character of s is in the code page. */
  predicate AllInCodePage(s: string) {
    forall k | 0 <= k < |s| :: InCodePage(s[k])
  }

  lemma AllInCodePageCons(s: string)
    requires s != []
    ensures AllInCodePage(s) <==> InCodePage(s[0]) && AllInCodePage(s[1..])
  {
    if InCodePage(s[0]) && AllInCodePage(s[1..]) {
      forall k | 0 < k < |s| ensures InCodePage(s[k]) {
        assert s[k] == s[1..][k - 1];
      }
    }
  }

  lemma AllInCodePageAppend(a: string, b: string)
    requires AllInCodePage(a) && AllInCodePage(b)
    ensures AllInCodePage(a + b)
  {
    forall k | |a| <= k < |a + b| ensures InCodePage((a + b)[k]) {
      assert (a + b)[k] == b[k - |a|];
    }
  }

  /** Encoding one character strictly: its byte when the code page holds it. */
  function EncodeChar(c: char): (r: Option<Byte>)
    ensures r.Some? <==> InCodePage(c)
    ensures r.Some? ==> DecodeByte(r.value) == Some(c)
  {
    if c as int < 128 then Some(c as int)
    else
      match IndexOf(HighTable, c as int, 0)
      case None => None
      case Some(k) => Some(128 + k)
  }

  /** A lower-case hexadecimal digit. */
  function HexDigit(d: nat): (c: char)
    requires d < 16
    ensures c as int < 128
  {
    if d < 10 then ('0' as int + d) as char else ('a' as int + d - 10) as char
  }

  function Pow16(w: nat): (r: nat)
    ensures r >= 1
  {
    if w == 0 then 1 else 16 * Pow16(w - 1)
  }

  /** n in exactly w lower-case hexadecimal digits (n below 16^w). */
  function Hex(n: nat, w: nat): (r: string)
    requires n < Pow16(w)
    ensures |r| == w && forall k | 0 <= k < w :: r[k] as int < 128
  {
    if w == 0 then [] else Hex(n / 16, w - 1) + [HexDigit(n % 16)]
  }

  /** The value of a hexadecimal digit, if c is one. */
  function HexValue(c: char): (r: Option<nat>)
    ensures r.Some? ==> r.value < 16
  {
    if '0' <= c <= '9' then Some(c as int - '0' as int)
    else if 'a' <= c <= 'f' then Some(c as int - 'a' as int + 10)
    else if 'A' <= c <= 'F' then Some(c as int - 'A' as int + 10)
    else None
  }

  /** The number a string of hexadecimal digits denotes, if it is one. */
  function ReadHex(s: string): (r: Option<nat>)
    ensures r.Some? ==> r.value < Pow16(|s|)
  {
    if s == [] then Some(0)
    else match (ReadHex(s[..|s| - 1]), HexValue(s[|s| - 1]))
      case (Some(high), Some(d)) => Some(high * 16 + d)
      case _ => None
  }

  /** Writing a number in hexadecimal and reading it back gives the number. */
  lemma {:induction false} ReadHexOfHex(n: nat, w: nat)
    requires n < Pow16(w)
    ensures ReadHex(Hex(n, w)) == Some(n)
    decreases w
  {
    if w > 0 {
      var h := Hex(n, w);
      assert h[..w - 1] == Hex(n / 16, w - 1);
      ReadHexOfHex(n / 16, w - 1);
    }
  }

  /** Python's backslashreplace text for a character: \xhh, \uhhhh or \Uhhhhhhhh after the width its code point needs. */
  function Escape(c: char): (r: string)
    ensures |r| >= 4 && r[0] == '\\'
    ensures forall k | 0 <= k < |r| :: r[k] as int < 128
  {
    var n := c as int;
    assert Pow16(2) == 256 && Pow16(4) == 65536 && Pow16(8) == 4294967296;
    if n < 0x100 then "\\x" + Hex(n, 2)
    else if n < 0x10000 then "\\u" + Hex(n, 4)
    else "\\U" + Hex(n, 8)
  }

  /** Reading an escape back: its marker fixes how many hexadecimal digits follow, and they spell a code point. */
  function ReadEscape(e: string): (r: Option<char>)
  {
    if |e| < 2 || e[0] != '\\' then None
    else
      var w := if e[1] == 'x' then 2 else if e[1] == 'u' then 4 else if e[1] == 'U' then 8 else 0;
      if w == 0 || |e| != 2 + w then None
      else match ReadHex(e[2..])
        case Some(n) =>
          if 0 <= n < 0xD800 || 0xE000 <= n < 0x11_0000 then Some(n as char) else None
        case None => None
  }

  /** An escape denotes the character it replaces. */
  lemma ReadEscapeOfEscape(c: char)
    ensures ReadEscape(Escape(c)) == Some(c)
  {
    var n := c as int;
    assert Pow16(2) == 256 && Pow16(4) == 65536 && Pow16(8) == 4294967296;
    var e := Escape(c);
    if n < 0x100 {
      assert e[2..] == Hex(n, 2);
      ReadHexOfHex(n, 2);
    } else if n < 0x10000 {
      assert e[2..] == Hex(n, 4);
      ReadHexOfHex(n, 4);
    } else {
      assert e[2..] == Hex(n, 8);
      ReadHexOfHex(n, 8);
    }
  }

  /** What one character becomes: itself when the code page holds it, its escape otherwise. */
  function Replace(c: char): (r: string)
    ensures InCodePage(c) ==> r == [c]
    ensures !InCodePage(c) ==> ReadEscape(r) == Some(c)
    ensures AllInCodePage(r)
  {
    if InCodePage(c) then [c]
    else
      ReadEscapeOfEscape(c);
      Escape(c)
  }

  /** The text that survives the round trip through Windows-1250 with backslashreplace. */
  function Sanitize(s: string): (r: string)
    ensures AllInCodePage(r)
    ensures |r| >= |s|
  {
    if s == [] then [] else
      AllInCodePageAppend(Replace(s[0]), Sanitize(s[1..]));
      Replace(s[0]) + Sanitize(s[1..])
  }

  /** s.encode("cp1250", "backslashreplace") */
  function Encode(s: string): (r: seq<Byte>)
    ensures |r| >= |s|
  {
    if s == [] then [] else EncodeReplaced(Replace(s[0])) + Encode(s[1..])
  }

  /** The bytes of text whose every character the code page holds. */
  function EncodeReplaced(t: string): (r: seq<Byte>)
    requires AllInCodePage(t)
    ensures |r| == |t| && forall k | 0 <= k < |t| :: DecodeByte(r[k]) == Some(t[k])
  {
    if t == [] then []
    else
      assert InCodePage(t[0]);
      [EncodeChar(t[0]).value] + EncodeReplaced(t[1..])
  }

  /** bytes.decode("cp1250"): strict, so an undefined byte raises UnicodeDecodeError, a ValueError. */
  function Decode(bs: seq<Byte>): (r: Result<string>)
    ensures r.Ok? ==> |r.value| == |bs|
  {
    if bs == [] then Ok([])
    else match DecodeByte(bs[0])
      case None => Err(ValueError("'charmap' codec can't decode byte"))
      case Some(c) =>
        match Decode(bs[1..])
        case Err(e) => Err(e)
        case Ok(rest) => Ok([c] + rest)
  }

  /** The export's final pass: encode with backslashreplace, then decode. */
  function Transcode(s: string): (r: Result<string>)
    ensures r.Ok? ==> |r.value| >= |s|
  {
    Decode(Encode(s))
  }

  lemma AppendAssoc<T>(p: seq<T>, q: seq<T>, r: seq<T>)
    ensures (p + q) + r == p + (q + r)
  {
  }

  /** Decoding a nonempty byte string that decodes, followed by more bytes whose tail part decodes. */
  lemma DecodeAppendStep(a: seq<Byte>, b: seq<Byte>, tail: string)
    requires a != [] && Decode(a).Ok? && Decode(a[1..] + b) == Ok(tail)
    ensures Decode(a + b) == Ok([DecodeByte(a[0]).value] + tail)
  {
    var ab := a + b;
    assert ab[0] == a[0];
    assert ab[1..] == a[1..] + b;
  }

  lemma {:induction false} DecodeAppend(a: seq<Byte>, b: seq<Byte>, x: string, y: string)
    requires Decode(a) == Ok(x) && Decode(b) == Ok(y)
    ensures Decode(a + b) == Ok(x + y)
    decreases |a|
  {
    if a == [] {
      assert a + b == b && x + y == y;
    } else {
      var rest := Decode(a[1..]).value;
      DecodeAppend(a[1..], b, rest, y);
      DecodeAppendStep(a, b, rest + y);
      assert x == [DecodeByte(a[0]).value] + rest;
      AppendAssoc([DecodeByte(a[0]).value], rest, y);
    }
  }

  lemma {:induction false} DecodeReplaced(t: string)
    requires AllInCodePage(t)
    ensures Decode(EncodeReplaced(t)) == Ok(t)
    decreases |t|
  {
    if t != [] {
      AllInCodePageCons(t);
      DecodeReplaced(t[1..]);
      var bs := EncodeReplaced(t);
      assert bs[1..] == EncodeReplaced(t[1..]);
      assert t == [t[0]] + t[1..];
    }
  }

  /**
   * The round trip never raises, and its result is the sanitized text: characters of the code
   * page unchanged, every other character replaced by its escape.
   */
  lemma {:induction false} TranscodeIsSanitize(s: string)
    ensures Transcode(s) == Ok(Sanitize(s))
    decreases |s|
  {
    if s != [] {
      TranscodeIsSanitize(s[1..]);
      DecodeReplaced(Replace(s[0]));
      DecodeAppend(EncodeReplaced(Replace(s[0])), Encode(s[1..]), Replace(s[0]), Sanitize(s[1..]));
    }
  }

  /** Sanitizing splits over concatenation. */
  lemma {:induction false} SanitizeAppend(a: string, b: string)
    ensures Sanitize(a + b) == Sanitize(a) + Sanitize(b)
    decreases |a|
  {
    if a == [] {
      assert a + b == b;
    } else {
      assert (a + b)[0] == a[0] && (a + b)[1..] == a[1..] + b;
      SanitizeAppend(a[1..], b);
    }
  }

  /** Text wholly inside the code page is left unchanged, and only such text is. */
  lemma {:induction false} SanitizeFixed(s: string)
    ensures Sanitize(s) == s <==> AllInCodePage(s)
    decreases |s|
  {
    if s != [] {
      SanitizeFixed(s[1..]);
      AllInCodePageCons(s);
      if InCodePage(s[0]) {
        var tail := Sanitize(s[1..]);
        assert Sanitize(s) == [s[0]] + tail;
        if Sanitize(s) == s {
          assert tail == Sanitize(s)[1..];
        }
        if tail == s[1..] {
          assert s == [s[0]] + s[1..];
        }
      } else {
        assert |Sanitize(s)| > |s| by {
          assert |Escape(s[0])| >= 4;
        }
      }
    }
  }

  /** Sanitizing twice is sanitizing once: the escapes are plain ASCII. */
  lemma SanitizeIdempotent(s: string)
    ensures Sanitize(Sanitize(s)) == Sanitize(s)
  {
    SanitizeFixed(Sanitize(s));
  }

  /** The letters of the company address are in the code page, and so is the euro sign. */
  lemma CodepageMembers()
    ensures InCodePage('\U{159}') && InCodePage('\U{20AC}')
  {
    assert HighTable[0x78] == 0x159;
    assert HighTable[0] == 0x20AC;
  }

  lemma SmileNotInRows0To1()
    ensures 0x263A !in Row0 + Row1
  {
    assert 0x263A !in Row0;
    assert 0x263A !in Row1;
  }

  lemma SmileNotInRows2To3()
    ensures 0x263A !in Row2 + Row3
  {
    assert 0x263A !in Row2;
    assert 0x263A !in Row3;
  }

  lemma SmileNotInRows4To5()
    ensures 0x263A !in Row4 + Row5
  {
    assert 0x263A !in Row4;
    assert 0x263A !in Row5;
  }

  lemma SmileNotInRows6To7()
    ensures 0x263A !in Row6 + Row7
  {
    assert 0x263A !in Row6;
    assert 0x263A !in Row7;
  }

  /** A white smiling face is not in the code page. */
  lemma SmileNotInCodePage()
    ensures !InCodePage('\U{263A}')
  {
    SmileNotInRows0To1();
    SmileNotInRows2To3();
    SmileNotInRows4To5();
    SmileNotInRows6To7();
    assert HighTable == (Row0 + Row1) + (Row2 + Row3) + (Row4 + Row5) + (Row6 + Row7);
  }

  lemma HexSmile()
    ensures Hex(0x263A, 4) == "263a"
  {
    assert Hex(0x263A / 16, 3) == "263" by {
      assert Hex(0x263A / 256, 2) == "26" by {
        assert Hex(0x263A / 4096, 1) == "2";
      }
    }
  }

  /** ... so the round trip writes it as the escape of its code point. */
  lemma CodepageEscapeExample()
    ensures Sanitize("\U{263A}") == "\\u263a"
  {
    SmileNotInCodePage();
    HexSmile();
    assert Sanitize("\U{263A}") == Replace('\U{263A}') + Sanitize([]);
  }
}
