/** Valid UTF-8 is the encoding of a sequence of Unicode scalar values (sections 3 and 4 of RFC 3629). */
module CodePoints {
  import opened Utf8

  /** A code point that is not a surrogate. */
  predicate Scalar(c: int) {
    0 <= c <= 0x10FFFF && !(0xD800 <= c <= 0xDFFF)
  }

  function Encode(c: int): (s: seq<Byte>)
    requires Scalar(c)
  {
    if c < 0x80 then [c]
    else if c < 0x800 then [0xC0 + c / 64, 0x80 + c % 64]
    else if c < 0x1_0000 then [0xE0 + c / 4096, 0x80 + c / 64 % 64, 0x80 + c % 64]
    else [0xF0 + c / 262144, 0x80 + c / 4096 % 64, 0x80 + c / 64 % 64, 0x80 + c % 64]
  }

  function EncodeAll(cs: seq<int>): seq<Byte>
    requires forall i :: 0 <= i < |cs| ==> Scalar(cs[i])
  {
    if cs == [] then [] else Encode(cs[0]) + EncodeAll(cs[1..])
  }

  /** Every scalar value is a rune of its own length. */
  lemma EncodedIsRune(c: int)
    requires Scalar(c)
    ensures RuneLength(Encode(c)) == |Encode(c)| > 0
  {
    var s := Encode(c);
    if 0x800 <= c < 0x1_0000 {
      assert c / 4096 == 0 ==> c / 64 % 64 >= 32;
      assert c / 4096 == 13 ==> c / 64 % 64 <= 31;
    } else if 0x1_0000 <= c {
      assert c / 262144 == 0 ==> c / 4096 % 64 >= 16;
      assert c / 262144 == 4 ==> c / 4096 % 64 <= 15;
    }
  }

  lemma Regroup(a: int, b: int)
    requires 0 <= a && 0 <= b < 64
    ensures (a * 64 + b) / 64 == a && (a * 64 + b) % 64 == b
  {
  }

  lemma TwoBytes(x: int, y: int) returns (c: int)
    requires 0xC2 <= x <= 0xDF && 0x80 <= y <= 0xBF
    ensures Scalar(c) && Encode(c) == [x, y]
  {
    c := (x - 0xC0) * 64 + (y - 0x80);
    Regroup(x - 0xC0, y - 0x80);
  }

  lemma ThreeBytes(x: int, y: int, z: int) returns (c: int)
    requires 0xE0 <= x <= 0xEF && 0x80 <= y <= 0xBF && 0x80 <= z <= 0xBF
    requires (x == 0xE0 ==> y >= 0xA0) && (x == 0xED ==> y <= 0x9F)
    ensures Scalar(c) && Encode(c) == [x, y, z]
  {
    var high := (x - 0xE0) * 64 + (y - 0x80);
    c := high * 64 + (z - 0x80);
    Regroup(high, z - 0x80);
    Regroup(x - 0xE0, y - 0x80);
    assert c / 4096 == high / 64;
  }

  lemma FourBytes(x: int, y: int, z: int, w: int) returns (c: int)
    requires 0xF0 <= x <= 0xF4 && 0x80 <= y <= 0xBF && 0x80 <= z <= 0xBF && 0x80 <= w <= 0xBF
    requires (x == 0xF0 ==> y >= 0x90) && (x == 0xF4 ==> y <= 0x8F)
    ensures Scalar(c) && Encode(c) == [x, y, z, w]
  {
    var top := (x - 0xF0) * 64 + (y - 0x80);
    var high := top * 64 + (z - 0x80);
    c := high * 64 + (w - 0x80);
    Regroup(high, w - 0x80);
    Regroup(top, z - 0x80);
    Regroup(x - 0xF0, y - 0x80);
    assert c / 4096 == high / 64 && c / 262144 == high / 4096 == top / 64;
  }

  /** And every rune is one. */
  lemma RuneIsEncoded(s: seq<Byte>) returns (c: int)
    requires RuneLength(s) > 0
    ensures Scalar(c) && Encode(c) == s[..RuneLength(s)]
  {
    var n := RuneLength(s);
    if n == 1 {
      c := s[0];
    } else if n == 2 {
      c := TwoBytes(s[0], s[1]);
    } else if n == 3 {
      c := ThreeBytes(s[0], s[1], s[2]);
    } else {
      c := FourBytes(s[0], s[1], s[2], s[3]);
    }
  }

  lemma {:induction false} EncodedIsValid(cs: seq<int>)
    requires forall i :: 0 <= i < |cs| ==> Scalar(cs[i])
    ensures Valid(EncodeAll(cs))
  {
    if cs != [] {
      EncodedIsRune(cs[0]);
      EncodedIsValid(cs[1..]);
      assert Encode(cs[0])[|Encode(cs[0])|..] == [];
      ValidConcat(Encode(cs[0]), EncodeAll(cs[1..]));
    }
  }

  lemma EncodeCons(c: int, rest: seq<int>)
    requires Scalar(c) && forall i :: 0 <= i < |rest| ==> Scalar(rest[i])
    ensures forall i :: 0 <= i < |[c] + rest| ==> Scalar(([c] + rest)[i])
    ensures EncodeAll([c] + rest) == Encode(c) + EncodeAll(rest)
  {
    assert ([c] + rest)[1..] == rest;
  }

  lemma {:induction false} ValidIsEncoded(s: seq<Byte>) returns (cs: seq<int>)
    requires Valid(s)
    ensures (forall i :: 0 <= i < |cs| ==> Scalar(cs[i])) && EncodeAll(cs) == s
    decreases |s|
  {
    if s == [] {
      cs := [];
    } else {
      var n := RuneLength(s);
      var c := RuneIsEncoded(s);
      var rest := ValidIsEncoded(s[n..]);
      cs := [c] + rest;
      EncodeCons(c, rest);
      assert s == s[..n] + s[n..];
    }
  }

  ghost predicate Encodes(cs: seq<int>, s: seq<Byte>) {
    (forall i :: 0 <= i < |cs| ==> Scalar(cs[i])) && EncodeAll(cs) == s
  }

  /** A byte string is valid if and only if it encodes some scalar values. */
  lemma ValidIffEncoded(s: seq<Byte>)
    ensures Valid(s) <==> exists cs: seq<int> :: Encodes(cs, s)
  {
    if Valid(s) {
      var cs := ValidIsEncoded(s);
      assert Encodes(cs, s);
    }
    if cs: seq<int> :| Encodes(cs, s) {
      EncodedIsValid(cs);
    }
  }
}
