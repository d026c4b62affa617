/** Base64 as the browser provides it: the encoding of section 4 of RFC 4648
    (`btoa`), the URL-safe alphabet of its section 5 without padding (the JWK
    "k" member), and `atob`, whose decoder is the "forgiving-base64 decode" of
    the WHATWG Infra Standard (ASCII whitespace skipped, padding optional,
    leftover bits dropped). */
module Base64 {
  import opened Wrappers
  import opened Platform

  datatype Alphabet = Standard | UrlSafe

  /** The character for the 6-bit value `v`. */
  function Digit(v: nat, alphabet: Alphabet): char
    requires v < 64
  {
    if v < 26 then ('A' as int + v) as char
    else if v < 52 then ('a' as int + v - 26) as char
    else if v < 62 then ('0' as int + v - 52) as char
    else if v == 62 then (if alphabet == Standard then '+' else '-')
    else (if alphabet == Standard then '/' else '_')
  }

  /** The 6-bit value of `c`, or None when `c` is not in the alphabet. */
  function Value(c: char, alphabet: Alphabet): (r: Option<nat>)
    ensures r.Some? ==> r.value < 64 && Digit(r.value, alphabet) == c
  {
    if 'A' <= c <= 'Z' then Some(c as int - 'A' as int)
    else if 'a' <= c <= 'z' then Some(c as int - 'a' as int + 26)
    else if '0' <= c <= '9' then Some(c as int - '0' as int + 52)
    else if c == Digit(62, alphabet) then Some(62)
    else if c == Digit(63, alphabet) then Some(63)
    else None
  }

  lemma ValueOfDigit(v: nat, alphabet: Alphabet)
    requires v < 64
    ensures Value(Digit(v, alphabet), alphabet) == Some(v)
  {
  }

  // ---------------------------------------------------------------- encoding

  /** One quantum: three octets become four characters, a final group of one
      or two octets two or three characters (without "=" padding). */
  function EncodeGroup(g: seq<byte>, alphabet: Alphabet): string
    requires 1 <= |g| <= 3
  {
    var first := [Digit(g[0] / 4, alphabet)];
    if |g| == 1 then first + [Digit(g[0] % 4 * 16, alphabet)]
    else if |g| == 2 then
      first + [Digit(g[0] % 4 * 16 + g[1] / 16, alphabet), Digit(g[1] % 16 * 4, alphabet)]
    else
      first + [Digit(g[0] % 4 * 16 + g[1] / 16, alphabet),
               Digit(g[1] % 16 * 4 + g[2] / 64, alphabet), Digit(g[2] % 64, alphabet)]
  }

  /** The octets `b`, quantum by quantum, without "=" padding. */
  function EncodeUnpadded(b: seq<byte>, alphabet: Alphabet): string
    decreases |b|
  {
    if |b| == 0 then ""
    else if |b| <= 3 then EncodeGroup(b, alphabet)
    else EncodeGroup(b[..3], alphabet) + EncodeUnpadded(b[3..], alphabet)
  }

  /** The "=" characters that complete the last quantum of `n` octets. */
  function Padding(n: nat): string
  {
    if n % 3 == 1 then "==" else if n % 3 == 2 then "=" else ""
  }

  /** Section 4 of RFC 4648, with padding: what `btoa` emits for the octets `b`. */
  function Encode(b: seq<byte>): string
  {
    EncodeUnpadded(b, Standard) + Padding(|b|)
  }

  /** Section 5 of RFC 4648 without padding (the base64url of RFC 7515 section 2). */
  function EncodeUrl(b: seq<byte>): string
  {
    EncodeUnpadded(b, UrlSafe)
  }

  // ---------------------------------------------------------------- decoding

  /** Two, three or four characters give one, two or three octets; the bits
      left over in a short group are dropped. */
  function DecodeGroup(s: string, alphabet: Alphabet): Option<seq<byte>>
    requires 2 <= |s| <= 4
  {
    var a :- Value(s[0], alphabet);
    var b :- Value(s[1], alphabet);
    var o1: byte := a * 4 + b / 16;
    if |s| == 2 then Some([o1])
    else
      var c :- Value(s[2], alphabet);
      var o2: byte := b % 16 * 16 + c / 4;
      if |s| == 3 then Some([o1, o2])
      else
        var d :- Value(s[3], alphabet);
        var o3: byte := c % 4 * 64 + d;
        Some([o1, o2, o3])
  }

  /** Alphabet characters four at a time. A single leftover character or a
      character outside the alphabet fails. */
  function DecodeUnpadded(s: string, alphabet: Alphabet): Option<seq<byte>>
    decreases |s|
  {
    if |s| == 0 then Some([])
    else if |s| == 1 then None
    else if |s| <= 4 then DecodeGroup(s, alphabet)
    else
      var group :- DecodeGroup(s[..4], alphabet);
      var rest :- DecodeUnpadded(s[4..], alphabet);
      Some(group + rest)
  }

  /** TAB, LF, FF, CR and SPACE. */
  predicate IsAsciiWhitespace(c: char)
  {
    c == ' ' || c == '\t' || c == '\n' || c == '\r' || c as int == 0x0C
  }

  function RemoveWhitespace(s: string): string
    decreases |s|
  {
    if s == "" then ""
    else (if IsAsciiWhitespace(s[0]) then "" else [s[0]]) + RemoveWhitespace(s[1..])
  }

  /** When the length is a multiple of four, one or two trailing "=" go. */
  function RemovePadding(s: string): string
  {
    if |s| % 4 != 0 then s
    else if |s| >= 2 && s[|s| - 2] == '=' && s[|s| - 1] == '=' then s[..|s| - 2]
    else if |s| >= 1 && s[|s| - 1] == '=' then s[..|s| - 1]
    else s
  }

  /** The forgiving-base64 decode that `atob` runs; None is its failure. */
  function ForgivingDecode(s: string): Option<seq<byte>>
  {
    DecodeUnpadded(RemovePadding(RemoveWhitespace(s)), Standard)
  }

  /** Decoding of a JWK "k" member: base64url, no padding, nothing skipped. */
  function DecodeUrl(s: string): Option<seq<byte>>
  {
    DecodeUnpadded(s, UrlSafe)
  }

  // ------------------------------------------------------- btoa and atob

  /** A "binary string": every character is at most U+00FF. */
  predicate IsBinaryString(s: string)
  {
    forall i | 0 <= i < |s| :: s[i] as int < 256
  }

  /** One character per octet, `String.fromCharCode(b[i])`. */
  function BinaryString(b: seq<byte>): (s: string)
    ensures |s| == |b| && IsBinaryString(s)
    ensures forall i | 0 <= i < |b| :: s[i] as int == b[i]
  {
    seq(|b|, i requires 0 <= i < |b| => b[i] as char)
  }

  /** The octets of a binary string, `s.charCodeAt(i)` for each i. */
  function CharCodes(s: string): (b: seq<byte>)
    requires IsBinaryString(s)
    ensures |b| == |s| && BinaryString(b) == s
  {
    seq(|s|, i requires 0 <= i < |s| => s[i] as int)
  }

  /** `window.btoa`: throws InvalidCharacterError on a character above U+00FF. */
  function Btoa(s: string): (r: Result<string, DomError>)
    ensures r.Ok? <==> IsBinaryString(s)
    ensures r.Err? ==> r.error == InvalidCharacterError
    ensures r.Ok? ==> |r.value| == 4 * ((|s| + 2) / 3)
  {
    if IsBinaryString(s) then
      EncodeForm(CharCodes(s));
      Ok(Encode(CharCodes(s)))
    else Err(InvalidCharacterError)
  }

  /** `window.atob`: throws InvalidCharacterError on text that is not Base64. */
  function Atob(s: string): (r: Result<string, DomError>)
    ensures r.Err? <==> ForgivingDecode(s).None?
    ensures r.Err? ==> r.error == InvalidCharacterError
    ensures r.Ok? ==> IsBinaryString(r.value) && CharCodes(r.value) == ForgivingDecode(s).value
  {
    match ForgivingDecode(s)
    case None => Err(InvalidCharacterError)
    case Some(b) =>
      assert CharCodes(BinaryString(b)) == b;
      Ok(BinaryString(b))
  }

  // ---------------------------------------------------------------- lemmas

  lemma GroupRoundTrip(g: seq<byte>, alphabet: Alphabet)
    requires 1 <= |g| <= 3
    ensures |EncodeGroup(g, alphabet)| == |g| + 1
    ensures forall i | 0 <= i < |g| + 1 :: Value(EncodeGroup(g, alphabet)[i], alphabet).Some?
    ensures DecodeGroup(EncodeGroup(g, alphabet), alphabet) == Some(g)
  {
    if |g| == 1 {
      OneOctetRoundTrip(g[0], alphabet);
      assert [g[0]] == g;
    } else if |g| == 2 {
      TwoOctetsRoundTrip(g[0], g[1], alphabet);
      assert [g[0], g[1]] == g;
    } else {
      ThreeOctetsRoundTrip(g[0], g[1], g[2], alphabet);
      assert [g[0], g[1], g[2]] == g;
    }
  }

  lemma OneOctetRoundTrip(x: byte, alphabet: Alphabet)
    ensures var s := EncodeGroup([x], alphabet);
      |s| == 2 && Value(s[0], alphabet).Some? && Value(s[1], alphabet).Some?
      && DecodeGroup(s, alphabet) == Some([x])
  {
    ValueOfDigit(x / 4, alphabet);
    ValueOfDigit(x % 4 * 16, alphabet);
    assert x / 4 * 4 + x % 4 * 16 / 16 == x;
  }

  lemma TwoOctetsRoundTrip(x: byte, y: byte, alphabet: Alphabet)
    ensures var s := EncodeGroup([x, y], alphabet);
      |s| == 3 && Value(s[0], alphabet).Some? && Value(s[1], alphabet).Some?
      && Value(s[2], alphabet).Some? && DecodeGroup(s, alphabet) == Some([x, y])
  {
    var d1 := x % 4 * 16 + y / 16;
    ValueOfDigit(x / 4, alphabet);
    ValueOfDigit(d1, alphabet);
    ValueOfDigit(y % 16 * 4, alphabet);
    assert x / 4 * 4 + d1 / 16 == x;
    assert d1 % 16 * 16 + y % 16 * 4 / 4 == y;
  }

  lemma ThreeOctetsRoundTrip(x: byte, y: byte, z: byte, alphabet: Alphabet)
    ensures var s := EncodeGroup([x, y, z], alphabet);
      |s| == 4 && Value(s[0], alphabet).Some? && Value(s[1], alphabet).Some?
      && Value(s[2], alphabet).Some? && Value(s[3], alphabet).Some?
      && DecodeGroup(s, alphabet) == Some([x, y, z])
  {
    var d0, d1, d2, d3 := x / 4, x % 4 * 16 + y / 16, y % 16 * 4 + z / 64, z % 64;
    var s := EncodeGroup([x, y, z], alphabet);
    assert s == [Digit(d0, alphabet), Digit(d1, alphabet), Digit(d2, alphabet), Digit(d3, alphabet)];
    ValueOfDigit(d0, alphabet);
    ValueOfDigit(d1, alphabet);
    ValueOfDigit(d2, alphabet);
    ValueOfDigit(d3, alphabet);
    SextetArithmetic(x, y, z);
  }

  lemma SextetArithmetic(x: byte, y: byte, z: byte)
    ensures x / 4 * 4 + (x % 4 * 16 + y / 16) / 16 == x
    ensures (x % 4 * 16 + y / 16) % 16 * 16 + (y % 16 * 4 + z / 64) / 4 == y
    ensures (y % 16 * 4 + z / 64) % 4 * 64 + z % 64 == z
  {
  }

  lemma {:induction false} EncodeUnpaddedForm(b: seq<byte>, alphabet: Alphabet)
    ensures |EncodeUnpadded(b, alphabet)| == (4 * |b| + 2) / 3
    ensures forall i | 0 <= i < |EncodeUnpadded(b, alphabet)| ::
      Value(EncodeUnpadded(b, alphabet)[i], alphabet).Some?
    decreases |b|
  {
    if 1 <= |b| <= 3 {
      GroupRoundTrip(b, alphabet);
    } else if |b| > 3 {
      var head, tail := EncodeGroup(b[..3], alphabet), EncodeUnpadded(b[3..], alphabet);
      GroupRoundTrip(b[..3], alphabet);
      EncodeUnpaddedForm(b[3..], alphabet);
      assert forall i | 4 <= i < |head + tail| :: (head + tail)[i] == tail[i - 4];
    }
  }

  /** Decoding undoes encoding, in either alphabet. */
  lemma {:induction false} DecodeEncodeUnpadded(b: seq<byte>, alphabet: Alphabet)
    ensures DecodeUnpadded(EncodeUnpadded(b, alphabet), alphabet) == Some(b)
    decreases |b|
  {
    if 1 <= |b| <= 3 {
      GroupRoundTrip(b, alphabet);
    } else if |b| > 3 {
      var head, tail := EncodeGroup(b[..3], alphabet), EncodeUnpadded(b[3..], alphabet);
      GroupRoundTrip(b[..3], alphabet);
      EncodeUnpaddedForm(b[3..], alphabet);
      DecodeEncodeUnpadded(b[3..], alphabet);
      assert (head + tail)[..4] == head && (head + tail)[4..] == tail;
      assert b[..3] + b[3..] == b;
    }
  }

  /** `btoa` output: length 4·⌈n/3⌉, alphabet characters first, then only "=". */
  lemma EncodeForm(b: seq<byte>)
    ensures |Encode(b)| == 4 * ((|b| + 2) / 3)
    ensures forall i | 0 <= i < (4 * |b| + 2) / 3 :: Value(Encode(b)[i], Standard).Some?
    ensures forall i | (4 * |b| + 2) / 3 <= i < |Encode(b)| :: Encode(b)[i] == '='
  {
    EncodeUnpaddedForm(b, Standard);
    UnpaddedLength(|b|);
    var u := EncodeUnpadded(b, Standard);
    forall i | 0 <= i < |u| ensures Encode(b)[i] == u[i] {}
  }

  lemma {:induction false} RemoveWhitespaceNoop(s: string)
    requires forall i | 0 <= i < |s| :: !IsAsciiWhitespace(s[i])
    ensures RemoveWhitespace(s) == s
    decreases |s|
  {
    if s != "" {
      RemoveWhitespaceNoop(s[1..]);
    }
  }

  /** The number of characters of `m` octets before and after padding. */
  lemma UnpaddedLength(m: nat)
    ensures m % 3 == 0 ==> (4 * m + 2) / 3 == 4 * (m / 3) && ((4 * m + 2) / 3) % 4 == 0
    ensures m % 3 == 1 ==> (4 * m + 2) / 3 == 4 * (m / 3) + 2 && ((4 * m + 2) / 3) % 4 == 2
    ensures m % 3 == 2 ==> (4 * m + 2) / 3 == 4 * (m / 3) + 3 && ((4 * m + 2) / 3) % 4 == 3
    ensures (4 * m + 2) / 3 + |Padding(m)| == 4 * ((m + 2) / 3)
    ensures (4 * ((m + 2) / 3)) % 4 == 0
  {
    var q, r := m / 3, m % 3;
    assert m == 3 * q + r;
    assert 4 * m + 2 == 3 * (4 * q + r) + (r + 2);
    assert m + 2 == 3 * (q + (r + 2) / 3) + (r + 2) % 3;
  }

  lemma RemovePaddingOf(u: string, m: nat)
    requires |u| == (4 * m + 2) / 3
    requires forall i | 0 <= i < |u| :: Value(u[i], Standard).Some?
    ensures RemovePadding(u + Padding(m)) == u
  {
    UnpaddedLength(m);
    var n := |u|;
    var e := u + Padding(m);
    assert |e| % 4 == 0;
    if m % 3 == 0 {
      assert e == u;
      if n > 0 {
        assert Value(u[n - 1], Standard).Some?;
      }
    } else if m % 3 == 1 {
      assert e[..n] == u;
    } else {
      assert Value(u[n - 1], Standard).Some?;
      assert e[n - 1] == u[n - 1];
      assert e[..n] == u;
    }
  }

  lemma RemovePaddingEncode(b: seq<byte>)
    ensures RemovePadding(Encode(b)) == EncodeUnpadded(b, Standard)
  {
    EncodeUnpaddedForm(b, Standard);
    RemovePaddingOf(EncodeUnpadded(b, Standard), |b|);
  }

  /** `atob` recovers the octets that `btoa` encoded. */
  lemma ForgivingDecodeEncode(b: seq<byte>)
    ensures ForgivingDecode(Encode(b)) == Some(b)
  {
    var e := Encode(b);
    EncodeForm(b);
    forall i | 0 <= i < |e| ensures !IsAsciiWhitespace(e[i]) {
      if i < (4 * |b| + 2) / 3 {
        assert Value(e[i], Standard).Some?;
      }
    }
    RemoveWhitespaceNoop(e);
    RemovePaddingEncode(b);
    DecodeEncodeUnpadded(b, Standard);
  }

  /** `btoa` accepts exactly the binary strings, and `atob` undoes it. */
  lemma AtobBtoa(s: string)
    ensures Btoa(s).Ok? <==> IsBinaryString(s)
    ensures Btoa(s).Ok? ==> Atob(Btoa(s).value) == Ok(s)
  {
    if IsBinaryString(s) {
      ForgivingDecodeEncode(CharCodes(s));
    }
  }

  /** Octets below 0x80 never make a sextet of value 62 except as the last
      sextet of a group, which is the third octet modulo 64: so without '>'
      (0x3E) or '~' (0x7E) at an offset of 2 modulo 3, Base64 holds no '+'. */
  lemma {:induction false} NoPlusDigit(b: seq<byte>)
    requires forall i | 0 <= i < |b| :: b[i] < 128
    requires forall i | 0 <= i < |b| && i % 3 == 2 :: b[i] != 0x3E && b[i] != 0x7E
    ensures '+' !in EncodeUnpadded(b, Standard)
    decreases |b|
  {
    if |b| > 3 {
      forall i | 0 <= i < |b| - 3 && i % 3 == 2 ensures b[3..][i] != 0x3E && b[3..][i] != 0x7E {
        assert b[3..][i] == b[i + 3] && (i + 3) % 3 == 2;
      }
      NoPlusDigit(b[3..]);
      assert b[..3][2] % 64 != 62;
    } else if |b| == 3 {
      assert b[2] % 64 != 62;
    }
  }

  /** ASCII text with no '>' or '~' at an offset of 2 modulo 3 (every JSON
      text of an exported JWK has none at all) passes `btoa`, and the result
      holds no '+'. */
  lemma BtoaWithoutPlus(s: string)
    requires forall i | 0 <= i < |s| :: s[i] as int < 128
    requires forall i | 0 <= i < |s| && i % 3 == 2 :: s[i] != '>' && s[i] != '~'
    ensures Btoa(s).Ok? && '+' !in Btoa(s).value
  {
    var b := CharCodes(s);
    assert forall i | 0 <= i < |b| :: b[i] == s[i] as int;
    NoPlusDigit(b);
  }

  /** ... and '~' is enough to produce one: btoa("~~~") is "fn5+". */
  lemma BtoaTildes()
    ensures Btoa("~~~") == Ok("fn5+")
  {
    var b: seq<byte> := [126, 126, 126];
    assert CharCodes("~~~") == b;
    assert Encode(b) == EncodeGroup(b, Standard);
    assert Digit(31, Standard) == 'f' && Digit(39, Standard) == 'n';
    assert Digit(57, Standard) == '5' && Digit(62, Standard) == '+';
    assert EncodeGroup(b, Standard) == "fn5+";
  }
}
