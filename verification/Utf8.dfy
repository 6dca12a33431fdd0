/**
 Well-formed UTF-8 against its definition: the encodings of sequences of Unicode scalar
 values, RFC 3629 section 3.
 */
module Utf8 {
  import opened CdrWire
  import opened CdrTypes

  type Scalar = c: nat | IsScalar(c)

  // The last six bits of a number, and what is in front of them.
  function Low(n: nat): (r: nat)
    ensures r < 64 && n == 64 * High(n) + r
  {
    n % 64
  }

  function High(n: nat): (r: nat)
    ensures 64 * r <= n < 64 * r + 64
  {
    n / 64
  }

  function EncodeScalar(c: Scalar): (r: Bytes)
    ensures r != []
  {
    if c < 0x80 then [c]
    else if c < 0x800 then [0xC0 + High(c), 0x80 + Low(c)]
    else if c < 0x1_0000 then [0xE0 + High(High(c)), 0x80 + Low(High(c)), 0x80 + Low(c)]
    else
      assert IsScalar(c);
      [0xF0 + High(High(High(c))), 0x80 + Low(High(High(c))), 0x80 + Low(High(c)), 0x80 + Low(c)]
  }

  function EncodeScalars(cs: seq<Scalar>): Bytes {
    if cs == [] then [] else EncodeScalar(cs[0]) + EncodeScalars(cs[1..])
  }

  // ----- every encoding is well-formed ----------------------------------------------

  lemma {:induction false} EncodingIsWellFormed(c: Scalar, rest: Bytes)
    requires IsUtf8(rest)
    ensures IsUtf8(EncodeScalar(c) + rest)
  {
    var s := EncodeScalar(c) + rest;
    if c < 0x80 {
      assert s[1..] == rest;
    } else if c < 0x800 {
      assert s[2..] == rest;
    } else if c < 0x1_0000 {
      assert s[3..] == rest;
      ThreeBytes(c);
    } else {
      assert s[4..] == rest;
      FourBytes(c);
    }
  }

  // The excluded second bytes would be overlong forms, surrogates, or beyond the last scalar.
  lemma ThreeBytes(c: Scalar)
    requires 0x800 <= c < 0x1_0000
    ensures High(High(c)) == 0 ==> 0x20 <= Low(High(c))
    ensures High(High(c)) == 0xD ==> Low(High(c)) <= 0x1F
  {
    assert IsScalar(c);
    hide High, Low;
  }

  lemma FourBytes(c: Scalar)
    requires 0x1_0000 <= c
    ensures High(High(High(c))) <= 4
    ensures High(High(High(c))) == 0 ==> 0x10 <= Low(High(High(c)))
    ensures High(High(High(c))) == 4 ==> Low(High(High(c))) <= 0xF
  {
    assert IsScalar(c);
    hide High, Low;
  }

  lemma PutDigit(n: nat, low: nat)
    requires low < 64
    ensures High(64 * n + low) == n && Low(64 * n + low) == low
  {
  }

  lemma {:induction false} EncodingsAreWellFormed(cs: seq<Scalar>)
    ensures IsUtf8(EncodeScalars(cs))
  {
    if cs != [] {
      EncodingsAreWellFormed(cs[1..]);
      EncodingIsWellFormed(cs[0], EncodeScalars(cs[1..]));
    }
  }

  // ----- everything well-formed is an encoding -----------------------------------------

  lemma TwoBytesOf(x: nat, y: nat)
    requires 2 <= x < 0x20 && y < 64
    ensures var c := 64 * x + y; IsScalar(c) && EncodeScalar(c) == [0xC0 + x, 0x80 + y]
  {
    PutDigit(x, y);
    hide High, Low;
  }

  lemma ThreeBytesOf(x: nat, y: nat, z: nat)
    requires x < 16 && y < 64 && z < 64 && (x == 0 ==> 0x20 <= y) && (x == 0xD ==> y <= 0x1F)
    ensures var c := 64 * (64 * x + y) + z; IsScalar(c) && EncodeScalar(c) == [0xE0 + x, 0x80 + y, 0x80 + z]
  {
    hide High, Low;
    PutDigit(x, y);
    PutDigit(64 * x + y, z);
  }

  lemma FourBytesOf(w: nat, x: nat, y: nat, z: nat)
    requires w <= 4 && x < 64 && y < 64 && z < 64 && (w == 0 ==> 0x10 <= x) && (w == 4 ==> x <= 0xF)
    ensures var c := 64 * (64 * (64 * w + x) + y) + z;
      IsScalar(c) && EncodeScalar(c) == [0xF0 + w, 0x80 + x, 0x80 + y, 0x80 + z]
  {
    hide High, Low;
    PutDigit(w, x);
    PutDigit(64 * w + x, y);
    PutDigit(64 * (64 * w + x) + y, z);
  }

  lemma FirstScalar(s: Bytes) returns (c: Scalar, rest: Bytes)
    requires s != [] && IsUtf8(s)
    ensures s == EncodeScalar(c) + rest && IsUtf8(rest)
  {
    hide EncodeScalar;
    var b: seq<int> := s;
    if s[0] < 0x80 {
      c, rest := s[0], s[1..];
      OneByteOf(c);
    } else if s[0] <= 0xDF {
      TwoBytesOf(b[0] - 0xC0, b[1] - 0x80);
      c, rest := 64 * (b[0] - 0xC0) + (b[1] - 0x80), s[2..];
    } else if s[0] <= 0xEF {
      ThreeBytesOf(b[0] - 0xE0, b[1] - 0x80, b[2] - 0x80);
      c, rest := 64 * (64 * (b[0] - 0xE0) + (b[1] - 0x80)) + (b[2] - 0x80), s[3..];
    } else {
      FourBytesOf(b[0] - 0xF0, b[1] - 0x80, b[2] - 0x80, b[3] - 0x80);
      c := 64 * (64 * (64 * (b[0] - 0xF0) + (b[1] - 0x80)) + (b[2] - 0x80)) + (b[3] - 0x80);
      rest := s[4..];
    }
  }

  lemma OneByteOf(c: Scalar)
    requires c < 0x80
    ensures EncodeScalar(c) == [c]
  {
  }

  lemma {:induction false} WellFormedIsEncoding(s: Bytes) returns (cs: seq<Scalar>)
    requires IsUtf8(s)
    ensures EncodeScalars(cs) == s
    decreases s
  {
    if s == [] {
      cs := [];
    } else {
      var c, rest := FirstScalar(s);
      var more := WellFormedIsEncoding(rest);
      cs := [c] + more;
      assert cs[1..] == more;
    }
  }

  // The check of the readers accepts exactly the encodings of scalar values.
  lemma WellFormedExactly(s: Bytes)
    ensures IsUtf8(s) <==> exists cs :: EncodeScalars(cs) == s
  {
    if IsUtf8(s) {
      var cs := WellFormedIsEncoding(s);
    }
    forall cs: seq<Scalar> | EncodeScalars(cs) == s ensures IsUtf8(s) {
      EncodingsAreWellFormed(cs);
    }
  }

  // A terminator changes nothing.
  lemma {:induction false} TerminatorIsWellFormed(s: Bytes)
    ensures IsUtf8(s + [0]) <==> IsUtf8(s)
    decreases |s|
  {
    var t := s + [0];
    if s == [] {
      assert t[1..] == [];
    } else {
      var n := if s[0] < 0x80 then 1 else if s[0] <= 0xDF then 2 else if s[0] <= 0xEF then 3 else 4;
      if n <= |s| {
        assert t[n..] == s[n..] + [0];
        TerminatorIsWellFormed(s[n..]);
      }
    }
  }
}
