/**
 * The pure helpers of libkbfs's util.go: reading a boolean setting from a
 * string, turning 16 random bytes into a request id, and the build and
 * version strings. Strings are sequences of Unicode code points.
 */
module Util {
  import opened Wrappers
  import opened DataTypes

  // ---------------------------------------------------------------- TrimSpace and BoolForString

  /** Go's unicode.IsSpace: the Latin-1 spaces and the other White_Space code points. */
  predicate IsSpace(c: char): (b: bool)
    ensures c == ' ' || c == '\t' || c == '\n' || c == '\r' ==> b
    ensures ('0' <= c <= '9') || ('A' <= c <= 'Z') || ('a' <= c <= 'z') || c == '=' || c == '-' || c == '_' ==> !b
  {
    var n := c as int;
    || (0x09 <= n <= 0x0D) || n == 0x20 || n == 0x85 || n == 0xA0
    || n == 0x1680 || (0x2000 <= n <= 0x200A)
    || n == 0x2028 || n == 0x2029 || n == 0x202F || n == 0x205F || n == 0x3000
  }

  predicate AllSpace(s: string)
  {
    forall i :: 0 <= i < |s| ==> IsSpace(s[i])
  }

  /** Neither end of the string is white space. */
  predicate Trimmed(s: string)
  {
    s == [] || (!IsSpace(s[0]) && !IsSpace(s[|s| - 1]))
  }

  /** The length of the run of white space that starts the string. */
  function LeadingSpaces(s: string): (k: nat)
    ensures k <= |s| && AllSpace(s[..k])
    ensures k < |s| ==> !IsSpace(s[k])
  {
    if |s| > 0 && IsSpace(s[0]) then 1 + LeadingSpaces(s[1..]) else 0
  }

  /** The length of the run of white space that ends the string. */
  function TrailingSpaces(s: string): (k: nat)
    ensures k <= |s| && AllSpace(s[|s| - k..])
    ensures k < |s| ==> !IsSpace(s[|s| - k - 1])
  {
    if |s| > 0 && IsSpace(s[|s| - 1]) then 1 + TrailingSpaces(s[..|s| - 1]) else 0
  }

  /**
   * strings.TrimSpace: the string without its leading and trailing white
   * space. The result sits between an all-space prefix of length
   * `LeadingSpaces(s)` and an all-space suffix.
   */
  function TrimSpace(s: string): (r: string)
    ensures Trimmed(r)
    ensures var k := LeadingSpaces(s); k + |r| <= |s| && s[k..k + |r|] == r && AllSpace(s[k + |r|..])
  {
    var k := LeadingSpaces(s);
    var rest := s[k..];
    rest[..|rest| - TrailingSpaces(rest)]
  }

  /** White space on both sides of a string is white space. */
  lemma AllSpaceConcat(x: string, y: string)
    requires AllSpace(x) && AllSpace(y)
    ensures AllSpace(x + y)
  {
    forall i | 0 <= i < |x + y|
      ensures IsSpace((x + y)[i])
    {
      if i >= |x| {
        assert (x + y)[i] == y[i - |x|];
      }
    }
  }

  /** The leading run of a string that starts with spaces and then a non-space is those spaces. */
  lemma {:induction false} LeadingSpacesOf(a: string, u: string)
    requires AllSpace(a) && (u == [] || !IsSpace(u[0]))
    ensures LeadingSpaces(a + u) == |a|
    decreases |a|
  {
    if a == [] {
      assert a + u == u;
    } else {
      assert (a + u)[0] == a[0];
      assert (a + u)[1..] == a[1..] + u;
      LeadingSpacesOf(a[1..], u);
    }
  }

  /** The trailing run of a string that ends with a non-space and then spaces is those spaces. */
  lemma {:induction false} TrailingSpacesOf(u: string, b: string)
    requires AllSpace(b) && (u == [] || !IsSpace(u[|u| - 1]))
    ensures TrailingSpaces(u + b) == |b|
    decreases |b|
  {
    if b == [] {
      assert u + b == u;
    } else {
      var s := u + b;
      assert s[|s| - 1] == b[|b| - 1];
      assert s[..|s| - 1] == u + b[..|b| - 1];
      TrailingSpacesOf(u, b[..|b| - 1]);
    }
  }

  /** Trimming a string padded with white space on both sides gives back the trimmed core. */
  lemma TrimSpaceOfPadded(a: string, t: string, b: string)
    requires AllSpace(a) && AllSpace(b) && Trimmed(t)
    ensures TrimSpace(a + t + b) == t
  {
    var s := a + t + b;
    if t == [] {
      assert s == (a + b) + [];
      AllSpaceConcat(a, b);
      LeadingSpacesOf(a + b, []);
    } else {
      assert s == a + (t + b);
      LeadingSpacesOf(a, t + b);
      var rest := s[|a|..];
      assert rest == t + b;
      TrailingSpacesOf(t, b);
      assert rest[..|rest| - |b|] == t;
    }
  }

  /** Regrouping a padded three-part string. */
  lemma Regroup(a: string, pre: string, t: string, post: string, b: string)
    ensures a + (pre + t + post) + b == (a + pre) + t + (post + b)
  {
  }

  /** Every string is its leading white space, its trimmed core and its trailing white space. */
  lemma TrimSpaceSplits(s: string)
    ensures var k := LeadingSpaces(s); var t := TrimSpace(s);
      s == s[..k] + t + s[k + |t|..] && AllSpace(s[..k]) && AllSpace(s[k + |t|..])
  {
    var k := LeadingSpaces(s);
    var t := TrimSpace(s);
    assert s[k..k + |t|] == t;
    assert s == s[..k] + s[k..k + |t|] + s[k + |t|..];
  }

  /** Adding white space at either end never changes what TrimSpace returns. */
  lemma TrimSpaceIgnoresPadding(a: string, s: string, b: string)
    requires AllSpace(a) && AllSpace(b)
    ensures TrimSpace(a + s + b) == TrimSpace(s)
  {
    var t := TrimSpace(s);
    var k := LeadingSpaces(s);
    var pre := s[..k];
    var post := s[k + |t|..];
    TrimSpaceSplits(s);
    Regroup(a, pre, t, post, b);
    AllSpaceConcat(a, pre);
    AllSpaceConcat(post, b);
    TrimSpaceOfPadded(a + pre, t, post + b);
  }

  /** The strings BoolForString reads as false once trimmed. */
  const FalseWords: set<string> := {"", "0", "false", "no"}

  /** BoolForString: false for a blank string and for "0", "false" and "no", true otherwise. */
  function BoolForString(s: string): (b: bool)
    ensures !b <==> TrimSpace(s) in FalseWords
  {
    var t := TrimSpace(s);
    !(t == "" || t == "0" || t == "false" || t == "no")
  }

  /** The answer depends only on the trimmed string: padding never changes it. */
  lemma BoolForStringIgnoresPadding(a: string, s: string, b: string)
    requires AllSpace(a) && AllSpace(b)
    ensures BoolForString(a + s + b) == BoolForString(s)
  {
    TrimSpaceIgnoresPadding(a, s, b);
  }

  /** A false word with any white space around it reads as false. */
  lemma PaddedFalseWordIsFalse(a: string, w: string, b: string)
    requires AllSpace(a) && AllSpace(b) && w in FalseWords
    ensures !BoolForString(a + w + b)
  {
    assert Trimmed(w);
    TrimSpaceOfPadded(a, w, b);
  }

  /** A word that is neither blank nor padded reads as itself. */
  lemma TrimmedWord(w: string)
    requires Trimmed(w)
    ensures TrimSpace(w) == w
  {
    assert w == [] + w + [];
    TrimSpaceOfPadded([], w, []);
  }

  /** A word with no white space at either end reads as true unless it is one of the false words. */
  lemma TrimmedWordIsTrue(w: string)
    requires Trimmed(w) && w !in FalseWords
    ensures BoolForString(w)
  {
    TrimmedWord(w);
  }

  /** The match is exact and case-sensitive: "False" reads as true. */
  lemma CapitalizedFalseIsTrue()
    ensures BoolForString("False")
  {
    assert "False" !in FalseWords by { assert "False"[0] != "false"[0]; }
    TrimmedWordIsTrue("False");
  }

  /** "NO" reads as true too. */
  lemma UpperCaseNoIsTrue()
    ensures BoolForString("NO")
  {
    assert "NO" !in FalseWords by { assert "NO"[0] != "no"[0]; }
    TrimmedWordIsTrue("NO");
  }

  // ---------------------------------------------------------------- base64url and request ids

  /** The digits of the URL- and filename-safe alphabet of section 5 of RFC 4648. */
  predicate IsUrlDigit(c: char)
  {
    ('A' <= c <= 'Z') || ('a' <= c <= 'z') || ('0' <= c <= '9') || c == '-' || c == '_'
  }

  /** The value of a digit of that alphabet (0 for anything else). */
  function DigitValue(c: char): int
  {
    if 'A' <= c <= 'Z' then c as int - 'A' as int
    else if 'a' <= c <= 'z' then c as int - 'a' as int + 26
    else if '0' <= c <= '9' then c as int - '0' as int + 52
    else if c == '-' then 62
    else if c == '_' then 63
    else 0
  }

  /** The digit for a 6-bit value, as RFC 4648 section 5's table assigns it. */
  function EncodeDigit(d: int): (c: char)
    requires 0 <= d < 64
    ensures IsUrlDigit(c) && DigitValue(c) == d
  {
    if d < 26 then ('A' as int + d) as char
    else if d < 52 then ('a' as int + d - 26) as char
    else if d < 62 then ('0' as int + d - 52) as char
    else if d == 62 then '-'
    else '_'
  }

  predicate IsSextet(d: int)
  {
    0 <= d < 64
  }

  /** The four 6-bit values that hold the 24 bits of three bytes, most significant first. */
  function Group(b0: Byte, b1: Byte, b2: Byte): (g: seq<int>)
    ensures |g| == 4 && IsSextet(g[0]) && IsSextet(g[1]) && IsSextet(g[2]) && IsSextet(g[3])
  {
    [b0 / 4, (b0 % 4) * 16 + b1 / 16, (b1 % 16) * 4 + b2 / 64, b2 % 64]
  }

  /** The three bytes whose bits four 6-bit values hold. */
  function Ungroup(d0: int, d1: int, d2: int, d3: int): (b: Bytes)
    ensures |b| == 3
  {
    [(d0 * 4 + d1 / 16) % 256, ((d1 % 16) * 16 + d2 / 4) % 256, ((d2 % 4) * 64 + d3) % 256]
  }

  lemma UngroupGroup0(b0: Byte, b1: Byte)
    ensures (b0 / 4) * 4 + ((b0 % 4) * 16 + b1 / 16) / 16 == b0
  {
    var h := b1 / 16;
    assert 0 <= h < 16;
    assert ((b0 % 4) * 16 + h) / 16 == b0 % 4;
  }

  lemma UngroupGroup1(b0: Byte, b1: Byte, b2: Byte)
    ensures (((b0 % 4) * 16 + b1 / 16) % 16) * 16 + ((b1 % 16) * 4 + b2 / 64) / 4 == b1
  {
    var h := b1 / 16;
    assert 0 <= h < 16;
    assert ((b0 % 4) * 16 + h) % 16 == h;
    var l := b2 / 64;
    assert 0 <= l < 4;
    assert ((b1 % 16) * 4 + l) / 4 == b1 % 16;
  }

  lemma UngroupGroup2(b1: Byte, b2: Byte)
    ensures (((b1 % 16) * 4 + b2 / 64) % 4) * 64 + b2 % 64 == b2
  {
    var l := b2 / 64;
    assert 0 <= l < 4;
    assert ((b1 % 16) * 4 + l) % 4 == l;
  }

  /** Ungroup undoes Group. */
  lemma UngroupGroup(b0: Byte, b1: Byte, b2: Byte)
    ensures var g := Group(b0, b1, b2); Ungroup(g[0], g[1], g[2], g[3]) == [b0, b1, b2]
  {
    var d0, d1, d2, d3 := b0 / 4, (b0 % 4) * 16 + b1 / 16, (b1 % 16) * 4 + b2 / 64, b2 % 64;
    assert Group(b0, b1, b2) == [d0, d1, d2, d3];
    assert (d0 * 4 + d1 / 16) % 256 == b0 by { UngroupGroup0(b0, b1); }
    assert ((d1 % 16) * 16 + d2 / 4) % 256 == b1 by { UngroupGroup1(b0, b1, b2); }
    assert ((d2 % 4) * 64 + d3) % 256 == b2 by { UngroupGroup2(b1, b2); }
  }

  predicate AllSextets(ds: seq<int>)
  {
    forall i :: 0 <= i < |ds| ==> IsSextet(ds[i])
  }

  /**
   * The 6-bit values of a byte string: four for each group of three bytes,
   * and two or three (zero-filled) for a final group of one or two bytes.
   */
  function Sextets(b: Bytes): (ds: seq<int>)
    ensures |ds| == (4 * |b| + 2) / 3 && AllSextets(ds)
    decreases |b|
  {
    if |b| == 0 then []
    else if |b| == 1 then Group(b[0], 0, 0)[..2]
    else if |b| == 2 then Group(b[0], b[1], 0)[..3]
    else
      var g := Group(b[0], b[1], b[2]);
      var rest := Sextets(b[3..]);
      assert forall i :: 4 <= i < |g + rest| ==> (g + rest)[i] == rest[i - 4];
      g + rest
  }

  /** The bytes that a run of 6-bit values holds; a single leftover value holds none. */
  function Octets(ds: seq<int>): Bytes
    decreases |ds|
  {
    if |ds| < 2 then []
    else if |ds| == 2 then Ungroup(ds[0], ds[1], 0, 0)[..1]
    else if |ds| == 3 then Ungroup(ds[0], ds[1], ds[2], 0)[..2]
    else Ungroup(ds[0], ds[1], ds[2], ds[3]) + Octets(ds[4..])
  }

  /** Octets undoes Sextets. */
  lemma {:induction false} OctetsSextets(b: Bytes)
    ensures Octets(Sextets(b)) == b
    decreases |b|
  {
    if |b| == 1 {
      var g := Group(b[0], 0, 0);
      assert Sextets(b) == [g[0], g[1]];
      assert Ungroup(g[0], g[1], 0, 0)[..1] == Ungroup(g[0], g[1], g[2], g[3])[..1];
      UngroupGroup(b[0], 0, 0);
    } else if |b| == 2 {
      var g := Group(b[0], b[1], 0);
      assert Sextets(b) == [g[0], g[1], g[2]];
      assert Ungroup(g[0], g[1], g[2], 0)[..2] == Ungroup(g[0], g[1], g[2], g[3])[..2];
      UngroupGroup(b[0], b[1], 0);
    } else if |b| >= 3 {
      var g := Group(b[0], b[1], b[2]);
      var ds := Sextets(b);
      assert ds == g + Sextets(b[3..]);
      assert ds[..4] == g && ds[4..] == Sextets(b[3..]);
      UngroupGroup(b[0], b[1], b[2]);
      OctetsSextets(b[3..]);
      assert b == [b[0], b[1], b[2]] + b[3..];
    }
  }

  /** The digits for a run of 6-bit values. */
  function Digits(ds: seq<int>): (s: string)
    requires AllSextets(ds)
    ensures |s| == |ds| && forall i :: 0 <= i < |s| ==> IsUrlDigit(s[i])
  {
    if ds == [] then [] else [EncodeDigit(ds[0])] + Digits(ds[1..])
  }

  /** The values of a run of digits. */
  function Values(s: string): (ds: seq<int>)
    ensures |ds| == |s|
  {
    if s == [] then [] else [DigitValue(s[0])] + Values(s[1..])
  }

  /** Values undoes Digits. */
  lemma {:induction false} ValuesDigits(ds: seq<int>)
    requires AllSextets(ds)
    ensures Values(Digits(ds)) == ds
  {
    if ds != [] {
      var s := Digits(ds);
      assert s[0] == EncodeDigit(ds[0]) && s[1..] == Digits(ds[1..]);
      ValuesDigits(ds[1..]);
    }
  }

  /** The number of '=' that pad the encoding of `n` bytes to a multiple of four characters. */
  function PadLength(n: nat): (p: nat)
    ensures p < 3
  {
    (3 - n % 3) % 3
  }

  /** Digits and padding together fill whole groups of four characters. */
  lemma EncodedLength(n: nat)
    ensures (4 * n + 2) / 3 + PadLength(n) == 4 * ((n + 2) / 3)
  {
    var q, r := n / 3, n % 3;
    assert n == 3 * q + r;
    if r == 0 {
      assert (4 * n + 2) / 3 == 4 * q && (n + 2) / 3 == q;
    } else if r == 1 {
      assert (4 * n + 2) / 3 == 4 * q + 2 && (n + 2) / 3 == q + 1;
    } else {
      assert (4 * n + 2) / 3 == 4 * q + 3 && (n + 2) / 3 == q + 1;
    }
  }

  /** Base64url digits followed by `pad` '=' characters. */
  predicate DigitsThenPad(s: string, pad: nat)
  {
    pad <= |s|
    && (forall i :: 0 <= i < |s| - pad ==> IsUrlDigit(s[i]))
    && (forall i :: |s| - pad <= i < |s| ==> s[i] == '=')
  }

  function Padding(p: nat): (s: string)
    requires p < 3
    ensures |s| == p && forall i :: 0 <= i < p ==> s[i] == '='
  {
    if p == 0 then "" else if p == 1 then "=" else "=="
  }

  /**
   * base64.URLEncoding.EncodeToString: the digits of the byte string's 6-bit
   * values, padded with '=' to a multiple of four characters.
   */
  function Encode(b: Bytes): (s: string)
    ensures |s| == 4 * ((|b| + 2) / 3)
    ensures DigitsThenPad(s, PadLength(|b|))
  {
    var digits := Digits(Sextets(b));
    var pad := Padding(PadLength(|b|));
    EncodedLength(|b|);
    assert forall i :: |digits| <= i < |digits + pad| ==> (digits + pad)[i] == pad[i - |digits|];
    digits + pad
  }

  /** The number of '=' at the end of a string, up to two. */
  function PadCount(s: string): (n: nat)
    ensures n <= 2 && n <= |s|
  {
    if |s| >= 2 && s[|s| - 2..] == "==" then 2
    else if |s| >= 1 && s[|s| - 1] == '=' then 1
    else 0
  }

  /** Decoding of padded base64url text: the bytes held by the values of its digits. */
  function Decode(s: string): Bytes
  {
    Octets(Values(s[..|s| - PadCount(s)]))
  }

  /** Decoding undoes encoding, for every byte string. */
  lemma DecodeEncode(b: Bytes)
    ensures Decode(Encode(b)) == b
  {
    var ds := Sextets(b);
    var digits := Digits(ds);
    var p := PadLength(|b|);
    var s := Encode(b);
    assert s == digits + Padding(p);
    if |b| > 0 {
      assert |digits| >= 2;
      assert !IsUrlDigit('=');
      assert s[|digits| - 1] == digits[|digits| - 1];
      if p == 2 {
        assert s[|s| - 2..] == "==";
      } else if p == 1 {
        assert s[|s| - 2] == digits[|digits| - 1];
      } else {
        assert s[|s| - 1] == digits[|digits| - 1];
      }
      assert PadCount(s) == p;
    }
    assert s[..|s| - PadCount(s)] == digits;
    ValuesDigits(ds);
    OctetsSextets(b);
  }

  /** Different byte strings never share an encoding. */
  lemma EncodeInjective(a: Bytes, b: Bytes)
    requires Encode(a) == Encode(b)
    ensures a == b
  {
    DecodeEncode(a);
    DecodeEncode(b);
  }

  /** strings.TrimSuffix: the string without the suffix when it ends with it. */
  function TrimSuffix(s: string, suffix: string): (r: string)
    ensures |suffix| <= |s| && s[|s| - |suffix|..] == suffix ==> r + suffix == s
    ensures !(|suffix| <= |s| && s[|s| - |suffix|..] == suffix) ==> r == s
  {
    if |suffix| <= |s| && s[|s| - |suffix|..] == suffix then s[..|s| - |suffix|] else s
  }

  /** The request id for 128 random bits: their base64url encoding without its "==" padding. */
  function RequestIdFromBytes(buf: Bytes): (id: string)
    requires |buf| == 16
    ensures |id| == 22 && id + "==" == Encode(buf)
    ensures forall i :: 0 <= i < |id| ==> IsUrlDigit(id[i])
    ensures '=' !in id
  {
    var s := Encode(buf);
    assert s[22] == '=' && s[23] == '=';
    assert s[22..] == "==";
    TrimSuffix(s, "==")
  }

  /** Two different 16-byte buffers never give the same request id. */
  lemma RequestIdInjective(a: Bytes, b: Bytes)
    requires |a| == 16 && |b| == 16
    requires RequestIdFromBytes(a) == RequestIdFromBytes(b)
    ensures a == b
  {
    EncodeInjective(a, b);
  }

  /**
   * MakeRandomRequestID with the random read as its input: `random` is the
   * 16-byte buffer the read filled, `readErr` its error. A failed read
   * yields the empty id and that error.
   */
  function MakeRandomRequestId(random: Bytes, readErr: Option<Error>): (r: (string, Option<Error>))
    requires |random| == 16
    ensures readErr.Some? ==> r == ("", readErr)
    ensures readErr.None? ==> r.1 == None && r.0 + "==" == Encode(random) && |r.0| == 22
  {
    if readErr.Some? then ("", readErr) else (RequestIdFromBytes(random), None)
  }

  // ---------------------------------------------------------------- Build and VersionString

  /** Build: the custom build when one was set, the default one otherwise. */
  function Build(customBuild: string, defaultBuild: string): (r: string)
    ensures customBuild != "" ==> r == customBuild
    ensures customBuild == "" ==> r == defaultBuild
  {
    if customBuild != "" then customBuild else defaultBuild
  }

  /** VersionString: the version, a '-', then the build. */
  function VersionString(version: string, customBuild: string, defaultBuild: string): (r: string)
    ensures |r| == |version| + 1 + |Build(customBuild, defaultBuild)|
    ensures r[..|version|] == version && r[|version|] == '-'
    ensures r[|version| + 1..] == Build(customBuild, defaultBuild)
  {
    version + "-" + Build(customBuild, defaultBuild)
  }
}
