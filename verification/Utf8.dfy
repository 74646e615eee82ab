/**
 UTF-8 well-formedness as the table of section 4 of RFC 3629 gives it, and the
 character boundaries that Rust's `str` slicing relies on.
 */
module Utf8 {
  import opened Prelude

  /** A continuation octet, `10xxxxxx`. */
  predicate Tail(b: Byte) {
    0x80 <= b <= 0xBF
  }

  /** Length of the well-formed character at the front of `s`, or 0 when there is none. */
  function CharLen(s: Bytes): (n: nat)
    ensures n <= 4 && n <= |s|
    ensures forall i :: 1 <= i < n ==> Tail(s[i])
    ensures n > 0 ==> !Tail(s[0])
    ensures n > 1 ==> forall i :: 0 <= i < n ==> s[i] >= 0x80
    ensures n == 1 ==> s[0] < 0x80
  {
    if |s| == 0 then 0
    else if s[0] < 0x80 then 1
    else if 0xC2 <= s[0] <= 0xDF && |s| >= 2 && Tail(s[1]) then 2
    else if 0xE0 <= s[0] <= 0xEF && |s| >= 3 && Tail(s[1]) && Tail(s[2])
         && (s[0] == 0xE0 ==> s[1] >= 0xA0) && (s[0] == 0xED ==> s[1] <= 0x9F) then 3
    else if 0xF0 <= s[0] <= 0xF4 && |s| >= 4 && Tail(s[1]) && Tail(s[2]) && Tail(s[3])
         && (s[0] == 0xF0 ==> s[1] >= 0x90) && (s[0] == 0xF4 ==> s[1] <= 0x8F) then 4
    else 0
  }

  /** A Unicode scalar value: no surrogates. */
  type Scalar = c: int | 0 <= c < 0xD800 || 0xE000 <= c < 0x11_0000

  /** The encoding of section 3 of RFC 3629. */
  function Encode(c: Scalar): (r: Bytes)
    ensures 1 <= |r| <= 4
  {
    if c < 0x80 then [c]
    else if c < 0x800 then [0xC0 + c / 64, 0x80 + c % 64]
    else if c < 0x1_0000 then [0xE0 + c / 4096, 0x80 + c / 64 % 64, 0x80 + c % 64]
    else [0xF0 + c / 262144, 0x80 + c / 4096 % 64, 0x80 + c / 64 % 64, 0x80 + c % 64]
  }

  /** The table accepts the encoding of every scalar value ... */
  lemma EncodedIsWellFormed(c: Scalar, rest: Bytes)
    ensures CharLen(Encode(c) + rest) == |Encode(c)|
  {
    var e, s := Encode(c), Encode(c) + rest;
    assert forall i :: 0 <= i < |e| ==> s[i] == e[i];
  }

  lemma Split64(x: nat, y: int)
    requires 0 <= y < 64
    ensures (x * 64 + y) / 64 == x && (x * 64 + y) % 64 == y
  {
  }

  /** Taking a scalar apart in groups of six bits. */
  lemma Groups2(a: nat, b: int)
    requires 0 <= b < 64 && 2 <= a < 32
    ensures var c := a * 64 + b; 0x80 <= c < 0x800 && Encode(c) == [0xC0 + a, 0x80 + b]
  {
    Split64(a, b);
  }

  lemma Groups3(a: nat, b: int, c: int)
    requires a < 16 && 0 <= b < 64 && 0 <= c < 64 && (a == 0 ==> b >= 0x20) && (a == 13 ==> b < 0x20)
    ensures var v := (a * 64 + b) * 64 + c;
            0x800 <= v < 0x1_0000 && (v < 0xD800 || v >= 0xE000) && Encode(v) == [0xE0 + a, 0x80 + b, 0x80 + c]
  {
    var v := (a * 64 + b) * 64 + c;
    Split64(a * 64 + b, c);
    Split64(a, b);
    assert v / 4096 == v / 64 / 64;
  }

  lemma Groups4(a: nat, b: int, c: int, d: int)
    requires a <= 4 && 0 <= b < 64 && 0 <= c < 64 && 0 <= d < 64 && (a == 0 ==> b >= 0x10) && (a == 4 ==> b < 0x10)
    ensures var v := ((a * 64 + b) * 64 + c) * 64 + d;
            0x1_0000 <= v < 0x11_0000 && Encode(v) == [0xF0 + a, 0x80 + b, 0x80 + c, 0x80 + d]
  {
    var v := ((a * 64 + b) * 64 + c) * 64 + d;
    Split64((a * 64 + b) * 64 + c, d);
    Split64(a * 64 + b, c);
    Split64(a, b);
    assert v / 4096 == v / 64 / 64 && v / 262144 == v / 64 / 64 / 64;
  }

  /** ... and nothing else. */
  lemma WellFormedIsEncoded(s: Bytes) returns (c: Scalar)
    requires CharLen(s) > 0
    ensures s[..CharLen(s)] == Encode(c)
  {
    var n := CharLen(s);
    var x: int := s[0];
    if n == 1 {
      c := x;
    } else {
      var y: int := s[1];
      if n == 2 {
        Groups2(x - 0xC0, y - 0x80);
        c := (x - 0xC0) * 64 + (y - 0x80);
      } else {
        var z: int := s[2];
        if n == 3 {
          Groups3(x - 0xE0, y - 0x80, z - 0x80);
          c := ((x - 0xE0) * 64 + (y - 0x80)) * 64 + (z - 0x80);
        } else {
          var w: int := s[3];
          Groups4(x - 0xF0, y - 0x80, z - 0x80, w - 0x80);
          c := (((x - 0xF0) * 64 + (y - 0x80)) * 64 + (z - 0x80)) * 64 + (w - 0x80);
        }
      }
    }
  }

  predicate Valid(s: Bytes) {
    s == [] || (CharLen(s) > 0 && Valid(s[CharLen(s)..]))
  }

  /** A Rust `String`. */
  type Text = s: Bytes | Valid(s)

  /** `str::is_char_boundary`. */
  predicate IsCharBoundary(s: Bytes, n: nat) {
    n == 0 || n == |s| || (n < |s| && !Tail(s[n]))
  }

  lemma {:induction false} AsciiValid(s: Bytes)
    requires forall i :: 0 <= i < |s| ==> s[i] < 0x80
    ensures Valid(s)
  {
    if s != [] {
      AsciiValid(s[1..]);
    }
  }

  /** Cutting a character short leaves no well-formed character behind. */
  lemma CharLenOfPrefix(s: Bytes, n: nat)
    requires CharLen(s) > 0 && n <= |s|
    ensures CharLen(s[..n]) == if n < CharLen(s) then 0 else CharLen(s)
  {
  }

  /** In well-formed text the valid prefixes are exactly those that end on a character boundary. */
  lemma {:induction false} BoundaryIffValidPrefix(s: Bytes, n: nat)
    requires Valid(s) && n <= |s|
    ensures Valid(s[..n]) <==> IsCharBoundary(s, n)
  {
    var c := CharLen(s);
    if n == 0 {
    } else if n < c {
      CharLenOfPrefix(s, n);
    } else {
      CharLenOfPrefix(s, n);
      assert s[..n][c..] == s[c..][..n - c];
      BoundaryIffValidPrefix(s[c..], n - c);
      assert n < |s| ==> s[n] == s[c..][n - c];
    }
  }

  /** A boundary lies at most three octets before any position of well-formed text. */
  lemma {:induction false} BoundaryWithinThree(s: Bytes, n: nat) returns (b: nat)
    requires Valid(s) && n <= |s|
    ensures b <= n <= b + 3 && IsCharBoundary(s, b)
  {
    var c := CharLen(s);
    if n == 0 || n < c {
      b := 0;
    } else {
      var b' := BoundaryWithinThree(s[c..], n - c);
      b := b' + c;
      assert b < |s| ==> s[b] == s[c..][b'];
    }
  }
}
