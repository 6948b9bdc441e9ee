/** UTF-8 text as bytes: well-formed byte sequences of RFC 3629 section 4, and character boundaries. */
module Utf8 {
  import opened Basics

  predicate Continuation(b: Byte) {
    0x80 <= b < 0xC0
  }

  /** How many bytes the well-formed character at the head of s takes; 0 when there is none. */
  function CharLen(s: seq<Byte>): (n: nat)
    ensures n <= 4 && n <= |s|
    ensures n > 0 ==> !Continuation(s[0]) && forall i :: 1 <= i < n ==> Continuation(s[i])
  {
    if |s| == 0 then 0
    else if s[0] < 0x80 then 1
    else if 0xC2 <= s[0] <= 0xDF && |s| >= 2 && Continuation(s[1]) then 2
    else if 0xE0 <= s[0] <= 0xEF && |s| >= 3 && Continuation(s[1]) && Continuation(s[2])
      && (s[0] == 0xE0 ==> s[1] >= 0xA0) && (s[0] == 0xED ==> s[1] <= 0x9F) then 3
    else if 0xF0 <= s[0] <= 0xF4 && |s| >= 4 && Continuation(s[1]) && Continuation(s[2]) && Continuation(s[3])
      && (s[0] == 0xF0 ==> s[1] >= 0x90) && (s[0] == 0xF4 ==> s[1] <= 0x8F) then 4
    else 0
  }

  predicate Valid(s: seq<Byte>)
    decreases |s|
  {
    s == [] || (CharLen(s) > 0 && Valid(s[CharLen(s)..]))
  }

  // ----- characters as numbers -----

  /** A Unicode scalar value: no surrogates. */
  predicate Scalar(c: nat) {
    c < 0xD800 || 0xE000 <= c < 0x11_0000
  }

  /** How RFC 3629 section 3 writes a character: six bits to each byte but the first. */
  function Encoded(c: nat): (s: seq<Byte>)
    requires Scalar(c)
    ensures 1 <= |s| <= 4
  {
    if c < 0x80 then [c]
    else if c < 0x800 then [0xC0 + c / 64, 0x80 + c % 64]
    else if c < 0x1_0000 then [0xE0 + c / 64 / 64, 0x80 + c / 64 % 64, 0x80 + c % 64]
    else [0xF0 + c / 64 / 64 / 64, 0x80 + c / 64 / 64 % 64, 0x80 + c / 64 % 64, 0x80 + c % 64]
  }

  /** A byte as an unbounded number. */
  function Number(b: Byte): int {
    b
  }

  /** s begins with the encoding of c. */
  predicate StartsWithChar(s: seq<Byte>, c: nat) {
    Scalar(c) && Encoded(c) <= s
  }

  /** The bytes begin with a character exactly when they begin with the encoding of a scalar value, of that length. */
  lemma CharLenExactly(s: seq<Byte>)
    ensures CharLen(s) > 0 <==> exists c :: StartsWithChar(s, c)
    ensures forall c :: StartsWithChar(s, c) ==> CharLen(s) == |Encoded(c)|
  {
    forall c | StartsWithChar(s, c)
      ensures CharLen(s) == |Encoded(c)|
    {
      EncodedIsChar(s, c);
    }
    if CharLen(s) > 0 {
      var c := DecodedChar(s);
    }
    hide CharLen, StartsWithChar;
  }

  lemma EncodedIsChar(s: seq<Byte>, c: nat)
    requires StartsWithChar(s, c)
    ensures CharLen(s) == |Encoded(c)|
  {
    var e := Encoded(c);
    assert s[0] == e[0] && (|e| > 1 ==> s[1] == e[1]) && (|e| > 2 ==> s[2] == e[2]) && (|e| > 3 ==> s[3] == e[3]);
  }

  lemma DecodedChar(s: seq<Byte>) returns (c: nat)
    requires CharLen(s) > 0
    ensures StartsWithChar(s, c)
  {
    var n := CharLen(s);
    if n == 1 {
      c := s[0];
      assert Encoded(c) == s[..1];
    } else if n == 2 {
      c := Number(s[0]) % 0x20 * 64 + Number(s[1]) % 64;
      assert Encoded(c) == s[..2];
    } else if n == 3 {
      c := ThreeBytes(s[0], s[1], s[2]);
      assert Encoded(c) == s[..3];
    } else {
      c := FourBytes(s[0], s[1], s[2], s[3]);
      assert Encoded(c) == s[..4];
    }
    hide Encoded;
  }

  lemma ThreeBytes(b0: Byte, b1: Byte, b2: Byte) returns (c: nat)
    requires 0xE0 <= b0 <= 0xEF && Continuation(b1) && Continuation(b2)
    requires (b0 == 0xE0 ==> b1 >= 0xA0) && (b0 == 0xED ==> b1 <= 0x9F)
    ensures Scalar(c) && Encoded(c) == [b0, b1, b2]
  {
    var x, y, z := Number(b0) - 0xE0, Number(b1) - 0x80, Number(b2) - 0x80;
    c := (x * 64 + y) * 64 + z;
    Digits(x * 64 + y, z);
    Digits(x, y);
  }

  lemma FourBytes(b0: Byte, b1: Byte, b2: Byte, b3: Byte) returns (c: nat)
    requires 0xF0 <= b0 <= 0xF4 && Continuation(b1) && Continuation(b2) && Continuation(b3)
    requires (b0 == 0xF0 ==> b1 >= 0x90) && (b0 == 0xF4 ==> b1 <= 0x8F)
    ensures Scalar(c) && Encoded(c) == [b0, b1, b2, b3]
  {
    var x, y, z, w := Number(b0) - 0xF0, Number(b1) - 0x80, Number(b2) - 0x80, Number(b3) - 0x80;
    c := ((x * 64 + y) * 64 + z) * 64 + w;
    Digits((x * 64 + y) * 64 + z, w);
    Digits(x * 64 + y, z);
    Digits(x, y);
  }

  lemma Digits(x: nat, y: nat)
    requires y < 64
    ensures (x * 64 + y) / 64 == x && (x * 64 + y) % 64 == y
  {
  }

  type Text = s: seq<Byte> | Valid(s) witness []

  /** is_char_boundary of the standard library. */
  predicate IsBoundary(s: seq<Byte>, i: nat) {
    i == 0 || i == |s| || (i < |s| && !Continuation(s[i]))
  }

  lemma CharLenOfPrefix(s: seq<Byte>, n: nat)
    requires CharLen(s) <= n <= |s| && CharLen(s) > 0
    ensures CharLen(s[..n]) == CharLen(s)
  {
  }

  /** Exactly at the boundaries of valid text both halves are valid. */
  lemma {:induction false} BoundarySplits(s: seq<Byte>, i: nat)
    requires Valid(s) && i <= |s|
    ensures IsBoundary(s, i) <==> Valid(s[..i])
    ensures IsBoundary(s, i) ==> Valid(s[i..])
    decreases |s|
  {
    if 0 < i < |s| {
      var n := CharLen(s);
      if i < n {
        assert Continuation(s[i]);
        TruncatedChar(s, i);
      } else {
        BoundarySplits(s[n..], i - n);
        assert s[n..][i - n..] == s[i..];
        assert s[..i][n..] == s[n..][..i - n];
        CharLenOfPrefix(s, i);
        assert i == n ==> s[n..][..0] == [];
      }
    } else {
      assert s[..|s|] == s;
    }
  }

  /** A character cut short is no character. */
  lemma TruncatedChar(s: seq<Byte>, i: nat)
    requires 0 < i < CharLen(s)
    ensures !Valid(s[..i])
  {
  }

  lemma {:induction false} ConcatValid(a: seq<Byte>, b: seq<Byte>)
    requires Valid(a) && Valid(b)
    ensures Valid(a + b)
    decreases |a|
  {
    if a == [] {
      assert a + b == b;
    } else {
      var n := CharLen(a);
      CharLenExtends(a, b);
      ValidHead(a);
      ValidHead(a + b);
      hide CharLen, Valid;
      ConcatValid(a[n..], b);
      DropConcat(a, b, n);
    }
  }

  lemma ValidHead(s: seq<Byte>)
    requires s != []
    ensures Valid(s) <==> CharLen(s) > 0 && Valid(s[CharLen(s)..])
  {
  }

  lemma CharLenExtends(a: seq<Byte>, b: seq<Byte>)
    requires CharLen(a) > 0
    ensures CharLen(a + b) == CharLen(a)
  {
    assert forall i :: 0 <= i < |a| ==> (a + b)[i] == a[i];
  }

  /** A boundary is never more than three bytes back. */
  lemma {:induction false} BoundaryNear(s: seq<Byte>, i: nat)
    requires Valid(s) && i <= |s|
    ensures exists j :: 0 <= j && i - 3 <= j <= i && IsBoundary(s, j)
    decreases |s|
  {
    if s == [] {
      assert IsBoundary(s, 0);
    } else {
      var n := CharLen(s);
      if i < n {
        assert IsBoundary(s, 0);
      } else {
        BoundaryNear(s[n..], i - n);
        var j :| 0 <= j && i - n - 3 <= j <= i - n && IsBoundary(s[n..], j);
        HeadIsBoundary(s, n);
        assert IsBoundary(s, j + n);
      }
    }
  }

  /** The end of the first character is a boundary. */
  lemma HeadIsBoundary(s: seq<Byte>, n: nat)
    requires Valid(s) && s != [] && n == CharLen(s)
    ensures IsBoundary(s, n)
  {
    assert s[n..] == [] || s[n] == s[n..][0];
  }

  // ----- lossy decoding -----

  /** Where no character begins, the bytes that one replacement character stands for: the longest start of one. */
  function BadLen(s: seq<Byte>): (n: nat)
    requires s != [] && CharLen(s) == 0
    ensures 1 <= n <= 3 && n <= |s|
  {
    var second := |s| > 1 && Continuation(s[1])
      && (s[0] == 0xE0 ==> s[1] >= 0xA0) && (s[0] == 0xED ==> s[1] <= 0x9F)
      && (s[0] == 0xF0 ==> s[1] >= 0x90) && (s[0] == 0xF4 ==> s[1] <= 0x8F);
    if 0xE0 <= s[0] <= 0xF4 && second then
      if 0xF0 <= s[0] && |s| > 2 && Continuation(s[2]) then 3 else 2
    else 1
  }

  /** s is the start of some character's encoding. */
  ghost predicate BeginsChar(s: seq<Byte>) {
    exists c :: Scalar(c) && s <= Encoded(c)
  }

  /** Beyond its first byte, BadLen reaches exactly as far as a character could still have come of it. */
  lemma BadLenExactly(s: seq<Byte>)
    requires s != [] && CharLen(s) == 0
    ensures forall m :: 1 < m <= |s| ==> (BeginsChar(s[..m]) <==> m <= BadLen(s))
  {
    forall m | 1 < m <= |s|
      ensures BeginsChar(s[..m]) <==> m <= BadLen(s)
    {
      if m <= BadLen(s) {
        var c := CharBegun(s, m);
      }
      if BeginsChar(s[..m]) {
        var c :| Scalar(c) && s[..m] <= Encoded(c);
        BegunIsBad(s, m, c);
      }
    }
  }

  lemma CharBegun(s: seq<Byte>, m: nat) returns (c: nat)
    requires s != [] && CharLen(s) == 0 && 1 < m <= BadLen(s)
    ensures Scalar(c) && s[..m] <= Encoded(c)
  {
    if s[0] < 0xF0 {
      c := ThreeBytes(s[0], s[1], 0x80);
    } else {
      c := FourBytes(s[0], s[1], if m > 2 then s[2] else 0x80, 0x80);
    }
    hide Encoded;
  }

  lemma BegunIsBad(s: seq<Byte>, m: nat, c: nat)
    requires s != [] && CharLen(s) == 0 && 1 < m <= |s| && Scalar(c) && s[..m] <= Encoded(c)
    ensures m <= BadLen(s)
  {
    var e := Encoded(c);
    assert s[..m][0] == e[0] && s[..m][1] == e[1] && (m > 2 ==> s[..m][2] == e[2]);
    if m == |e| {
      assert e == s[..m] && e <= s;
      EncodedIsChar(s, c);
    }
  }

  const REPLACEMENT: seq<Byte> := [0xEF, 0xBF, 0xBD]

  /** from_utf8_lossy of the standard library. */
  function Lossy(s: seq<Byte>): seq<Byte>
    decreases |s|
  {
    if s == [] then []
    else if CharLen(s) > 0 then s[..CharLen(s)] + Lossy(s[CharLen(s)..])
    else REPLACEMENT + Lossy(s[BadLen(s)..])
  }

  /** Decoding always gives text, at most three times as long. */
  lemma {:induction false} LossyIsText(s: seq<Byte>)
    ensures Valid(Lossy(s)) && |Lossy(s)| <= 3 * |s|
    decreases |s|
  {
    if s != [] {
      var n := CharLen(s);
      if n > 0 {
        LossyIsText(s[n..]);
        CharLenOfPrefix(s, n);
        assert s[..n][n..] == [];
        ConcatValid(s[..n], Lossy(s[n..]));
      } else {
        LossyIsText(s[BadLen(s)..]);
        assert CharLen(REPLACEMENT) == 3 && REPLACEMENT[3..] == [];
        ConcatValid(REPLACEMENT, Lossy(s[BadLen(s)..]));
      }
    }
  }

  /** Characters stay; where none begins, U+FFFD stands for as many bytes as could have begun one. */
  lemma LossyStep(s: seq<Byte>)
    requires s != []
    ensures Lossy(s) == if CharLen(s) > 0 then s[..CharLen(s)] + Lossy(s[CharLen(s)..])
                        else Encoded(0xFFFD) + Lossy(s[BadLen(s)..])
  {
  }

  /** It changes nothing exactly when the bytes are text. */
  lemma LossyIsExact(s: seq<Byte>)
    ensures Lossy(s) == s <==> Valid(s)
  {
    LossyIsText(s);
    if Valid(s) {
      TextStaysText(s);
    }
  }

  lemma {:induction false} TextStaysText(s: seq<Byte>)
    requires Valid(s)
    ensures Lossy(s) == s
    decreases |s|
  {
    if s != [] {
      TextStaysText(s[CharLen(s)..]);
    }
  }
}
