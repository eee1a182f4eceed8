/** Util::base64_decode, against the encoding of section 4 of RFC 4648. */
module Base64 {
  import opened Bytes

  type sextet = x: int | 0 <= x < 64

  const EQUALS: byte := 61

  // ---------------------------------------------------------------- the decoding table

  datatype Class = Illegal | Space | Pad | Value(v: sextet)

  /** base64_decode_table; form feed is not among the accepted spaces. */
  function Classify(c: byte): Class
  {
    if 65 <= c <= 90 then Value(c as int - 65)
    else if 97 <= c <= 122 then Value(c as int - 97 + 26)
    else if 48 <= c <= 57 then Value(c as int - 48 + 52)
    else if c == 43 then Value(62)
    else if c == 47 then Value(63)
    else if c == EQUALS then Pad
    else if c == 9 || c == 10 || c == 11 || c == 13 || c == 32 then Space
    else Illegal
  }

  /** The base 64 alphabet, table 1 of RFC 4648. */
  function Alphabet(v: sextet): (c: byte)
    ensures Classify(c) == Value(v)
  {
    if v < 26 then (65 + v) as byte
    else if v < 52 then (97 + v - 26) as byte
    else if v < 62 then (48 + v - 52) as byte
    else if v == 62 then 43
    else 47
  }

  const Upper: string := "ABCDEFGHIJKLMNOPQRSTUVWXYZ"
  const Lower: string := "abcdefghijklmnopqrstuvwxyz"
  const Rest: string := "0123456789+/"

  /** Table 1 of RFC 4648, position by position. */
  const Rfc4648Alphabet: string := Upper + Lower + Rest

  /** The decoding table is the inverse of that alphabet, with five kinds of white space and '='. */
  lemma TableIsRfc4648(c: byte)
    ensures |Rfc4648Alphabet| == 64
    ensures forall v: sextet :: Alphabet(v) as int == Rfc4648Alphabet[v] as int
    ensures Classify(c).Value? ==> Rfc4648Alphabet[Classify(c).v] as int == c as int
    ensures Classify(c).Value? <==> exists v :: 0 <= v < 64 && Rfc4648Alphabet[v] as int == c as int
    ensures Classify(c) == Space <==> c == 9 || c == 10 || c == 11 || c == 13 || c == 32
    ensures Classify(c) == Pad <==> c == '=' as int as byte
  {
    forall v: sextet ensures Alphabet(v) as int == Rfc4648Alphabet[v] as int { AlphabetAt(v); }
    if Classify(c).Value? {
      AlphabetAt(Classify(c).v);
    }
    if v :| 0 <= v < 64 && Rfc4648Alphabet[v] as int == c as int {
      AlphabetAt(v);
    }
  }

  lemma AlphabetAt(v: sextet)
    ensures Alphabet(v) as int == Rfc4648Alphabet[v] as int
  {
    if v < 26 {
      UpperAt(v);
    } else if v < 52 {
      LowerAt(v - 26);
    }
  }

  lemma UpperAt(v: nat)
    requires v < 26
    ensures Upper[v] as int == 65 + v
  {
    if v < 13 {
      assert Upper[v] == "ABCDEFGHIJKLM"[v];
    } else {
      assert Upper[v] == "NOPQRSTUVWXYZ"[v - 13];
    }
  }

  lemma LowerAt(v: nat)
    requires v < 26
    ensures Lower[v] as int == 97 + v
  {
    if v < 13 {
      assert Lower[v] == "abcdefghijklm"[v];
    } else {
      assert Lower[v] == "nopqrstuvwxyz"[v - 13];
    }
  }

  // ---------------------------------------------------------------- what decoding means

  /** The values before the first '=' or the end; none if an illegal character comes first. */
  function Sextets(input: seq<byte>): Option<seq<sextet>>
  {
    if input == [] then Some([])
    else match Classify(input[0])
      case Illegal => None
      case Space => Sextets(input[1..])
      case Pad => Some([])
      case Value(v) =>
        var rest := Sextets(input[1..]);
        if rest.None? then None else Some([v] + rest.value)
  }

  /** The three bytes that four 6-bit groups carry. */
  function Byte0(a: int, b: int): byte requires 0 <= a < 64 && 0 <= b < 64 { (a * 4 + b / 16) as byte }

  function Byte1(b: int, c: int): byte requires 0 <= b < 64 && 0 <= c < 64 { (b % 16 * 16 + c / 4) as byte }

  function Byte2(c: int, d: int): byte requires 0 <= c < 64 && 0 <= d < 64 { (c % 4 * 64 + d) as byte }

  /** The whole bytes in a string of 6-bit groups; bits hanging over the last byte are dropped. */
  function Unpack(s: seq<sextet>): seq<byte>
  {
    if |s| >= 4 then [Byte0(s[0], s[1]), Byte1(s[1], s[2]), Byte2(s[2], s[3])] + Unpack(s[4..])
    else if |s| == 3 then [Byte0(s[0], s[1]), Byte1(s[1], s[2])]
    else if |s| == 2 then [Byte0(s[0], s[1])]
    else []
  }

  lemma {:induction false} UnpackLength(s: seq<sextet>)
    ensures |Unpack(s)| == |s| * 3 / 4
  {
    if |s| < 4 {
    } else {
      UnpackLength(s[4..]);
      assert |s| * 3 == (|s| - 4) * 3 + 12;
    }
  }

  function Decoded(input: seq<byte>): Option<seq<byte>>
  {
    var s := Sextets(input);
    if s.None? || |s.value| % 4 == 1 then None else Some(Unpack(s.value))
  }

  /** Where the data ends: at the first '=' or at the end. */
  function DataEnd(input: seq<byte>): (e: nat)
    ensures e <= |input|
  {
    if input == [] || Classify(input[0]) == Pad then 0 else 1 + DataEnd(input[1..])
  }

  function CountValues(input: seq<byte>): nat
  {
    if input == [] then 0 else (if Classify(input[0]).Value? then 1 else 0) + CountValues(input[1..])
  }

  /** Decoding fails exactly when an illegal character comes before the data ends or the number of
      alphabet characters leaves a single one over; otherwise k of them give floor(3 k / 4) bytes. */
  lemma DecodedExactlyWhen(input: seq<byte>)
    ensures var data := input[..DataEnd(input)];
            && (Decoded(input).Some? <==> (forall c :: c in data ==> Classify(c) != Illegal) && CountValues(data) % 4 != 1)
            && (Decoded(input).Some? ==> |Decoded(input).value| == CountValues(data) * 3 / 4)
  {
    SextetsExactlyWhen(input);
    if Sextets(input).Some? {
      UnpackLength(Sextets(input).value);
    }
  }

  lemma {:induction false} SextetsExactlyWhen(input: seq<byte>)
    ensures var data := input[..DataEnd(input)];
            && (Sextets(input).Some? <==> forall c :: c in data ==> Classify(c) != Illegal)
            && (Sextets(input).Some? ==> |Sextets(input).value| == CountValues(data))
  {
    if input == [] || Classify(input[0]) == Pad {
    } else {
      SextetsExactlyWhen(input[1..]);
      var data, rest := input[..DataEnd(input)], input[1..][..DataEnd(input[1..])];
      assert data == [input[0]] + rest && data[1..] == rest;
      assert forall c :: c in data <==> c == input[0] || c in rest;
    }
  }

  // ---------------------------------------------------------------- RFC 4648 encoding

  /** The four 6-bit groups of three bytes. */
  function Group(x: int, y: int, z: int): (g: seq<sextet>)
    requires 0 <= x < 256 && 0 <= y < 256 && 0 <= z < 256
    ensures |g| == 4
  {
    [x / 4, x % 4 * 16 + y / 16, y % 16 * 4 + z / 64, z % 64]
  }

  function Pack(b: seq<byte>): seq<sextet>
  {
    if |b| >= 3 then
      Group(b[0] as int, b[1] as int, b[2] as int) + Pack(b[3..])
    else if |b| == 2 then
      var x, y := b[0] as int, b[1] as int;
      [x / 4, x % 4 * 16 + y / 16, y % 16 * 4]
    else if |b| == 1 then
      var x := b[0] as int;
      [x / 4, x % 4 * 16]
    else []
  }

  /** A group of 8-bit bytes and its 6-bit groups are the same bits: the same number, but for the zero
      bits that fill up the last group; and groups of three are encoded one after the other. */
  lemma PackedBits(b: seq<byte>)
    ensures |b| == 3 ==> |Pack(b)| == 4 && Accumulated(Pack(b)) == NumberOf(b)
    ensures |b| == 2 ==> |Pack(b)| == 3 && Accumulated(Pack(b)) == NumberOf(b) * 4
    ensures |b| == 1 ==> |Pack(b)| == 2 && Accumulated(Pack(b)) == NumberOf(b) * 16
    ensures |b| >= 3 ==> Pack(b) == Pack(b[..3]) + Pack(b[3..])
  {
    if |b| == 3 {
      PackedThree(b);
    } else if |b| == 2 {
      PackedTwo(b);
    } else if |b| == 1 {
      PackedOne(b);
    }
    if |b| >= 3 {
      PackedFirst(b);
    }
  }

  lemma PackedOne(b: seq<byte>)
    requires |b| == 1
    ensures |Pack(b)| == 2 && Accumulated(Pack(b)) == NumberOf(b) * 16
  {
    assert b[..0] == [] && NumberOf(b) == NumberOf([]) * 256 + b[0] as nat;
    AccumulatedTwo(Pack(b)[0], Pack(b)[1]);
  }

  lemma PackOfThree(x: byte, y: byte, z: byte)
    ensures Pack([x, y, z]) == Group(x as int, y as int, z as int)
  {
    assert [x, y, z][3..] == [] && Pack([x, y, z][3..]) == [];
  }

  lemma {:induction false} PackedFirst(b: seq<byte>)
    requires |b| >= 3
    ensures Pack(b) == Pack(b[..3]) + Pack(b[3..])
  {
    PackOfThree(b[0], b[1], b[2]);
    assert b[..3] == [b[0], b[1], b[2]];
  }

  lemma PackedThree(b: seq<byte>)
    requires |b| == 3
    ensures |Pack(b)| == 4 && Accumulated(Pack(b)) == NumberOf(b)
  {
    ThreeBytesValue(b);
    assert b[3..] == [] && Pack(b[3..]) == [];
    AccumulatedFour(Pack(b));
    GroupOfThree(b[0] as int, b[1] as int, b[2] as int);
  }

  lemma PackedTwo(b: seq<byte>)
    requires |b| == 2
    ensures |Pack(b)| == 3 && Accumulated(Pack(b)) == NumberOf(b) * 4
  {
    TwoBytesValue(b);
    var p := Pack(b);
    AccumulatedTwo(p[0], p[1]);
    AccumulatedMore([p[0], p[1]], p[2]);
    assert p == [p[0], p[1]] + [p[2]];
  }

  lemma TwoBytesValue(b: seq<byte>)
    requires |b| == 2
    ensures NumberOf(b) == b[0] as nat * 256 + b[1] as nat
  {
    assert NumberOf(b[..1]) == NumberOf([]) * 256 + b[0] as nat by { assert b[..1][..0] == []; }
  }

  lemma ThreeBytesValue(b: seq<byte>)
    requires |b| == 3
    ensures NumberOf(b) == (b[0] as nat * 256 + b[1] as nat) * 256 + b[2] as nat
  {
    TwoBytesValue(b[..2]);
  }

  lemma GroupOfThree(x: int, y: int, z: int)
    requires 0 <= x < 256 && 0 <= y < 256 && 0 <= z < 256
    ensures ((x / 4 * 64 + (x % 4 * 16 + y / 16)) * 64 + (y % 16 * 4 + z / 64)) * 64 + z % 64 == (x * 256 + y) * 256 + z
  {
  }

  function Letters(s: seq<sextet>): (t: seq<byte>)
    ensures |t| == |s|
  {
    seq(|s|, i requires 0 <= i < |s| => Alphabet(s[i]))
  }

  function EncodeUnpadded(b: seq<byte>): seq<byte> { Letters(Pack(b)) }

  /** With the one or two '=' that fill the last group. */
  function Encode(b: seq<byte>): seq<byte> { EncodeUnpadded(b) + Padding(|b|) }

  function Padding(n: nat): seq<byte>
  {
    if n % 3 == 1 then [EQUALS, EQUALS] else if n % 3 == 2 then [EQUALS] else []
  }

  function WithoutSpace(s: seq<byte>): seq<byte>
  {
    if s == [] then []
    else (if Classify(s[0]) == Space then [] else [s[0]]) + WithoutSpace(s[1..])
  }

  lemma {:induction false} UnpackPack(b: seq<byte>)
    ensures Unpack(Pack(b)) == b
  {
    if b == [] {
    } else if |b| == 1 {
      UnpackPackOne(b[0]);
      assert b == [b[0]];
    } else if |b| == 2 {
      UnpackPackTwo(b[0], b[1]);
      assert b == [b[0], b[1]];
    } else {
      UnpackPack(b[3..]);
      UnpackPackThree(b[0] as int, b[1] as int, b[2] as int, Pack(b[3..]));
      assert b == [b[0], b[1], b[2]] + b[3..];
    }
  }

  lemma UnpackPackOne(x: byte)
    ensures Unpack(Pack([x])) == [x]
  {
    ThreeBytes(x as int, 0, 0);
  }

  lemma UnpackPackTwo(x: byte, y: byte)
    ensures Unpack(Pack([x, y])) == [x, y]
  {
    ThreeBytes(x as int, y as int, 0);
  }

  lemma UnpackPackThree(x: int, y: int, z: int, rest: seq<sextet>)
    requires 0 <= x < 256 && 0 <= y < 256 && 0 <= z < 256
    ensures Unpack(Group(x, y, z) + rest) == [x as byte, y as byte, z as byte] + Unpack(rest)
  {
    var s := Group(x, y, z) + rest;
    assert s[4..] == rest;
    ThreeBytes(x, y, z);
  }

  lemma {:induction false} PackLength(b: seq<byte>)
    ensures |Pack(b)| % 4 != 1
  {
    if |b| < 3 {
    } else {
      PackLength(b[3..]);
      assert |Pack(b)| == 4 + |Pack(b[3..])|;
    }
  }

  lemma ThreeBytes(x: int, y: int, z: int)
    requires 0 <= x < 256 && 0 <= y < 256 && 0 <= z < 256
    ensures Byte0(x / 4, x % 4 * 16 + y / 16) as int == x
    ensures Byte1(x % 4 * 16 + y / 16, y % 16 * 4 + z / 64) as int == y
    ensures Byte2(y % 16 * 4 + z / 64, z % 64) as int == z
  {
  }

  lemma {:induction false} SextetsIgnoreSpace(s: seq<byte>)
    ensures Sextets(WithoutSpace(s)) == Sextets(s)
  {
    if s == [] {
    } else {
      SextetsIgnoreSpace(s[1..]);
      if Classify(s[0]) == Space {
        assert WithoutSpace(s) == WithoutSpace(s[1..]);
      } else {
        assert WithoutSpace(s)[1..] == WithoutSpace(s[1..]);
      }
    }
  }

  lemma {:induction false} SextetsOfLetters(t: seq<sextet>, tail: seq<byte>)
    requires tail == [] || tail[0] == EQUALS
    ensures Sextets(Letters(t) + tail) == Some(t)
  {
    var s := Letters(t) + tail;
    if t != [] {
      assert s[1..] == Letters(t[1..]) + tail;
      SextetsOfLetters(t[1..], tail);
      assert t == [t[0]] + t[1..];
    } else {
      assert s == tail;
    }
  }

  /** Decoding inverts the encoding, with its padding, without it, or with anything that starts with
      '=' behind the letters, and under any insertion of accepted white space. */
  lemma DecodeInvertsEncode(b: seq<byte>, s: seq<byte>, tail: seq<byte>)
    requires WithoutSpace(s) == EncodeUnpadded(b) + tail && (tail == [] || tail[0] == EQUALS)
    ensures Decoded(s) == Some(b)
  {
    SextetsIgnoreSpace(s);
    SextetsOfLetters(Pack(b), tail);
    UnpackPack(b);
    PackLength(b);
  }

  lemma {:induction false} LettersHaveNoSpace(t: seq<sextet>)
    ensures WithoutSpace(Letters(t)) == Letters(t)
  {
    if t == [] {
    } else {
      assert Letters(t)[1..] == Letters(t[1..]);
      LettersHaveNoSpace(t[1..]);
    }
  }

  lemma {:induction false} WithoutSpaceAppend(a: seq<byte>, b: seq<byte>)
    ensures WithoutSpace(a + b) == WithoutSpace(a) + WithoutSpace(b)
  {
    if a == [] {
      assert a + b == b;
    } else {
      assert (a + b)[1..] == a[1..] + b;
      WithoutSpaceAppend(a[1..], b);
    }
  }

  lemma EncodeHasNoSpace(b: seq<byte>)
    ensures WithoutSpace(Encode(b)) == Encode(b)
  {
    LettersHaveNoSpace(Pack(b));
    WithoutSpaceAppend(EncodeUnpadded(b), Padding(|b|));
    assert [EQUALS, EQUALS][1..] == [EQUALS] && [EQUALS][1..] == [];
    assert WithoutSpace([EQUALS]) == [EQUALS] + WithoutSpace([]);
    assert WithoutSpace([EQUALS, EQUALS]) == [EQUALS] + WithoutSpace([EQUALS]);
  }

  // ---------------------------------------------------------------- the loop

  /** The leftover groups as the number the loop keeps in n. */
  function Accumulated(s: seq<sextet>): nat
  {
    if s == [] then 0 else Accumulated(s[..|s| - 1]) * 64 + s[|s| - 1]
  }

  lemma AccumulatedMore(s: seq<sextet>, v: sextet)
    ensures Accumulated(s + [v]) == Accumulated(s) * 64 + v
  {
  }

  lemma AccumulatedTwo(a: sextet, b: sextet)
    ensures Accumulated([a, b]) == (a as int) * 64 + b
  {
    AccumulatedMore([], a);
    AccumulatedMore([a], b);
    assert [] + [a] == [a] && [a] + [b] == [a, b];
  }

  lemma FlushTwo(s: seq<sextet>, n: nat)
    requires |s| == 2 && n == Accumulated(s)
    ensures n / 16 < 256 && Unpack(s) == [(n / 16) as byte]
  {
    AccumulatedTwo(s[0], s[1]);
    assert s == [s[0], s[1]];
    TwoGroups(s[0], s[1], n);
  }

  lemma TwoGroups(a: int, b: int, n: nat)
    requires 0 <= a < 64 && 0 <= b < 64 && n == a * 64 + b
    ensures n / 16 < 256 && (n / 16) as byte == Byte0(a, b)
  {
  }

  lemma DivideBy4(n: int, q: int, r: int) requires n == 4 * q + r && 0 <= r < 4 ensures n / 4 == q && n % 4 == r {}

  lemma DivideBy256(n: int, q: int, r: int) requires n == 256 * q + r && 0 <= r < 256 ensures n / 256 == q && n % 256 == r {}

  lemma DivideBy1024(n: int, q: int, r: int) requires n == 1024 * q + r && 0 <= r < 1024 ensures n / 1024 == q && n % 1024 == r {}

  lemma DivideBy65536(n: int, q: int, r: int) requires n == 65536 * q + r && 0 <= r < 65536 ensures n / 65536 == q && n % 65536 == r {}

  lemma FlushThree(s: seq<sextet>, n: nat)
    requires |s| == 3 && n == Accumulated(s)
    ensures n / 1024 < 256 && Unpack(s) == [(n / 1024) as byte, (n / 4 % 256) as byte]
  {
    AccumulatedTwo(s[0], s[1]);
    AccumulatedMore([s[0], s[1]], s[2]);
    assert s == [s[0], s[1]] + [s[2]];
    ThreeGroups(s[0], s[1], s[2], n);
  }

  lemma ThreeGroups(a: int, b: int, c: int, n: nat)
    requires 0 <= a < 64 && 0 <= b < 64 && 0 <= c < 64 && n == (a * 64 + b) * 64 + c
    ensures n / 1024 < 256 && (n / 1024) as byte == Byte0(a, b) && (n / 4 % 256) as byte == Byte1(b, c)
  {
    var b1, b0, c1, c0 := b / 16, b % 16, c / 4, c % 4;
    var m := 256 * (a * 4 + b1) + (b0 * 16 + c1);
    DivideBy1024(n, a * 4 + b1, b0 * 64 + c);
    DivideBy4(n, m, c0);
    DivideBy256(m, a * 4 + b1, b0 * 16 + c1);
  }

  lemma AccumulatedFour(s: seq<sextet>)
    requires |s| == 4
    ensures Accumulated(s) == (((s[0] as int) * 64 + s[1]) * 64 + s[2]) * 64 + s[3]
  {
    AccumulatedTwo(s[0], s[1]);
    AccumulatedMore([s[0], s[1]], s[2]);
    AccumulatedMore([s[0], s[1]] + [s[2]], s[3]);
    assert s == [s[0], s[1]] + [s[2]] + [s[3]];
  }

  lemma FlushFour(s: seq<sextet>, n: nat)
    requires |s| == 4 && n == Accumulated(s)
    ensures n / 65536 < 256 && Unpack(s) == ThreeOf(n)
  {
    AccumulatedFour(s);
    FourGroups(s[0], s[1], s[2], s[3], n);
    assert ThreeOf(n) == [Byte0(s[0], s[1]), Byte1(s[1], s[2]), Byte2(s[2], s[3])];
    assert Unpack(s[4..]) == [];
  }

  function ThreeOf(n: nat): seq<byte>
    requires n / 65536 < 256
  {
    [(n / 65536) as byte, (n / 256 % 256) as byte, (n % 256) as byte]
  }

  /** n in base 256, from the quotients and remainders of b by 16 and c by 4. */
  lemma FourGroupsSplit(a: int, b: int, b1: int, b0: int, c: int, c1: int, c0: int, d: int, n: nat)
    requires 0 <= a < 64 && 0 <= b1 < 4 && 0 <= b0 < 16 && 0 <= c1 < 16 && 0 <= c0 < 4 && 0 <= d < 64
    requires b == 16 * b1 + b0 && c == 4 * c1 + c0
    requires n == ((a * 64 + b) * 64 + c) * 64 + d
    ensures n / 65536 == a * 4 + b1 && n / 256 % 256 == b0 * 16 + c1 && n % 256 == c0 * 64 + d
  {
    var m := 256 * (a * 4 + b1) + (b0 * 16 + c1);
    DivideBy256(n, m, c0 * 64 + d);
    DivideBy256(m, a * 4 + b1, b0 * 16 + c1);
    DivideBy65536(n, a * 4 + b1, (b0 * 16 + c1) * 256 + (c0 * 64 + d));
  }

  lemma FourGroups(a: int, b: int, c: int, d: int, n: nat)
    requires 0 <= a < 64 && 0 <= b < 64 && 0 <= c < 64 && 0 <= d < 64
    requires n == ((a * 64 + b) * 64 + c) * 64 + d
    ensures n / 65536 == Byte0(a, b) as int && n / 256 % 256 == Byte1(b, c) as int && n % 256 == Byte2(c, d) as int
  {
    FourGroupsSplit(a, b, b / 16, b % 16, c, c / 4, c % 4, d, n);
  }

  lemma {:induction false} UnpackAppend(a: seq<sextet>, b: seq<sextet>, q: nat)
    requires |a| == 4 * q
    ensures Unpack(a + b) == Unpack(a) + Unpack(b)
  {
    if q == 0 {
      assert a + b == b;
    } else {
      assert (a + b)[4..] == a[4..] + b;
      UnpackAppend(a[4..], b, q - 1);
    }
  }

  /** What has been read so far, and what is still to come, against the whole. */
  ghost predicate Split(input: seq<byte>, i: nat, done: seq<sextet>)
    requires i <= |input|
  {
    var rest := Sextets(input[i..]);
    && |done| <= i
    && (rest.None? <==> Sextets(input).None?)
    && (rest.Some? ==> Sextets(input) == Some(done + rest.value))
  }

  lemma SplitStart(input: seq<byte>)
    ensures Split(input, 0, [])
  {
    assert input[0..] == input;
    var rest := Sextets(input);
    if rest.Some? {
      assert [] + rest.value == rest.value;
    }
  }

  lemma SplitEnd(input: seq<byte>, done: seq<sextet>)
    requires Split(input, |input|, done)
    ensures Sextets(input) == Some(done)
  {
    assert input[|input|..] == [] && done + [] == done;
  }

  lemma SplitStep(input: seq<byte>, i: nat, done: seq<sextet>)
    requires i < |input| && Split(input, i, done)
    ensures match Classify(input[i])
            case Illegal => Sextets(input).None?
            case Space => Split(input, i + 1, done)
            case Pad => Sextets(input) == Some(done)
            case Value(v) => Split(input, i + 1, done + [v])
  {
    assert input[i..][1..] == input[i + 1..];
    assert done + [] == done;
    if Classify(input[i]).Value? {
      SplitValue(input, i, done, Classify(input[i]).v);
    }
  }

  lemma SplitValue(input: seq<byte>, i: nat, done: seq<sextet>, v: sextet)
    requires i < |input| && Split(input, i, done) && Classify(input[i]) == Value(v)
    ensures Split(input, i + 1, done + [v])
  {
    assert input[i..][1..] == input[i + 1..];
    var rest := Sextets(input[i + 1..]);
    if rest.Some? {
      assert Sextets(input[i..]) == Some([v] + rest.value);
      assert done + ([v] + rest.value) == done + [v] + rest.value;
    }
  }

  /** The state of the loop after the groups in done: q full groups of four written as three bytes
      each, and the nIdx groups left over in n. */
  ghost predicate Written(dest: seq<byte>, before: seq<byte>, q: nat, n: nat, nIdx: nat, done: seq<sextet>)
  {
    && nIdx < 4 && |done| == 4 * q + nIdx
    && 3 * q <= |dest| == |before|
    && |Unpack(done[..4 * q])| == 3 * q
    && dest == Unpack(done[..4 * q]) + before[3 * q..]
    && n == Accumulated(done[4 * q..])
  }

  lemma WrittenValue(dest: seq<byte>, before: seq<byte>, q: nat, n: nat, nIdx: nat, done: seq<sextet>, v: sextet)
    requires Written(dest, before, q, n, nIdx, done) && nIdx < 3
    ensures Written(dest, before, q, n * 64 + v, nIdx + 1, done + [v])
  {
    AccumulatedMore(done[4 * q..], v);
    assert (done + [v])[4 * q..] == done[4 * q..] + [v] && (done + [v])[..4 * q] == done[..4 * q];
  }

  lemma FourthSplit(done: seq<sextet>, v: sextet, q: nat)
    requires |done| == 4 * q + 3
    ensures Unpack(done + [v]) == Unpack(done[..4 * q]) + Unpack(done[4 * q..] + [v])
  {
    var head, last := done[..4 * q], done[4 * q..] + [v];
    assert done + [v] == head + last;
    UnpackAppend(head, last, q);
  }

  lemma WrittenFourth(dest: seq<byte>, before: seq<byte>, q: nat, n: nat, done: seq<sextet>, v: sextet, m: nat)
    requires Written(dest, before, q, n, 3, done) && m == n * 64 + v
    ensures m / 65536 < 256
    ensures 3 * q + 3 <= |dest| ==> Written(Splice(dest, 3 * q, ThreeOf(m)), before, q + 1, 0, 0, done + [v])
  {
    FourthSplit(done, v, q);
    AccumulatedMore(done[4 * q..], v);
    FlushFour(done[4 * q..] + [v], m);
    if 3 * q + 3 <= |dest| {
      assert (done + [v])[..4 * (q + 1)] == done + [v] && (done + [v])[4 * (q + 1)..] == [];
      SpliceAtEnd(dest, Unpack(done[..4 * q]), before, 3 * q, ThreeOf(m));
    }
  }

  lemma SpliceAtEnd(dest: seq<byte>, head: seq<byte>, before: seq<byte>, d: nat, v: seq<byte>)
    requires |head| == d && d + |v| <= |before| == |dest| && dest == head + before[d..]
    ensures Splice(dest, d, v) == head + v + before[d + |v|..]
  {
  }

  method Base64Decode(dest: array<byte>, destlen: int, input: seq<byte>) returns (r: int)
    requires destlen <= dest.Length
    modifies dest
    ensures r == if destlen < |input| * 3 / 4 || Decoded(input).None? then -1 else |Decoded(input).value|
    ensures r >= 0 ==> r <= destlen && dest[..] == Decoded(input).value + old(dest[..])[r..]
    ensures forall i :: 0 <= destlen <= i < dest.Length ==> dest[i] == old(dest[i])
  {
    if destlen < |input| * 3 / 4 {
      return -1;
    }
    var n: nat, nIdx: nat, d: nat, i: nat := 0, 0, 0, 0;
    ghost var done: seq<sextet>, before, q := [], dest[..], 0;
    SplitStart(input);
    while i < |input|
      invariant i <= |input| && Split(input, i, done)
      invariant d == 3 * q && Written(dest[..], before, q, n, nIdx, done)
    {
      SplitStep(input, i, done);
      match Classify(input[i]) {
        case Illegal =>
          KeepsTail(dest[..], before, q, n, nIdx, done, destlen);
          return -1;
        case Space =>
        case Pad =>
          break;
        case Value(v) =>
          d, n, nIdx, q := AppendValue(dest, d, n, nIdx, v, before, done, q);
          done := done + [v];
      }
      i := i + 1;
    }
    if i == |input| {
      SplitEnd(input, done);
    }
    assert Sextets(input) == Some(done);
    UnpackLength(done);
    r := FinishDecode(dest, d, n, nIdx, before, done, q, destlen);
  }

  /** The default case of the switch: six more bits, and three bytes out when there are 24. */
  method AppendValue(dest: array<byte>, d: nat, n: nat, nIdx: nat, v: sextet,
                     ghost before: seq<byte>, ghost done: seq<sextet>, ghost q: nat)
    returns (d': nat, n': nat, nIdx': nat, ghost q': nat)
    requires d == 3 * q && Written(dest[..], before, q, n, nIdx, done)
    requires nIdx == 3 ==> d + 3 <= dest.Length
    modifies dest
    ensures d' == 3 * q' && Written(dest[..], before, q', n', nIdx', done + [v])
  {
    d', n', nIdx', q' := d, n * 64 + v, nIdx + 1, q;
    if nIdx' == 4 {
      WrittenFourth(dest[..], before, q, n, done, v, n');
      ghost var was := dest[..];
      dest[d] := (n' / 65536) as byte;
      dest[d + 1] := (n' / 256 % 256) as byte;
      dest[d + 2] := (n' % 256) as byte;
      assert dest[..] == Splice(was, d, ThreeOf(n'));
      d', nIdx', n', q' := d + 3, 0, 0, q + 1;
    } else {
      WrittenValue(dest[..], before, q, n, nIdx, done, v);
    }
  }

  /** What follows the loop: the leftover bits. */
  method FinishDecode(dest: array<byte>, d: nat, n: nat, nIdx: nat,
                      ghost before: seq<byte>, ghost done: seq<sextet>, ghost q: nat, destlen: int)
    returns (r: int)
    requires d == 3 * q && Written(dest[..], before, q, n, nIdx, done)
    requires |done| * 3 / 4 <= destlen <= dest.Length
    modifies dest
    ensures r == if |done| % 4 == 1 then -1 else |Unpack(done)|
    ensures r >= 0 ==> r <= destlen && dest[..] == Unpack(done) + before[r..]
    ensures forall i :: destlen <= i < dest.Length ==> dest[i] == before[i]
  {
    KeepsTail(dest[..], before, q, n, nIdx, done, destlen);
    Leftover(dest[..], before, q, n, nIdx, done);
    if nIdx == 1 {
      return -1;
    }
    ghost var was := dest[..];
    r := WriteTail(dest, d, n, nIdx);
    SpliceAtEnd(was, Unpack(done[..4 * q]), before, d, Tail(n, nIdx));
  }

  /** Writes out the bytes that two or three leftover groups make. */
  method WriteTail(dest: array<byte>, d: nat, n: nat, nIdx: nat) returns (r: nat)
    requires (nIdx == 2 ==> n / 16 < 256) && (nIdx == 3 ==> n / 1024 < 256)
    requires d + |Tail(n, nIdx)| <= dest.Length
    modifies dest
    ensures r == d + |Tail(n, nIdx)|
    ensures dest[..] == Splice(old(dest[..]), d, Tail(n, nIdx))
  {
    r := d;
    if nIdx == 2 {
      dest[d] := (n / 16) as byte;
      r := d + 1;
    } else if nIdx == 3 {
      dest[d] := (n / 1024) as byte;
      dest[d + 1] := (n / 4 % 256) as byte;
      r := d + 2;
    }
  }

  lemma KeepsTail(dest: seq<byte>, before: seq<byte>, q: nat, n: nat, nIdx: nat, done: seq<sextet>, destlen: nat)
    requires Written(dest, before, q, n, nIdx, done) && 3 * q <= destlen
    ensures forall i :: destlen <= i < |dest| ==> dest[i] == before[i]
  {
  }

  /** The bytes made of two or three leftover groups. */
  function Tail(n: nat, nIdx: nat): seq<byte>
    requires nIdx == 2 ==> n / 16 < 256
    requires nIdx == 3 ==> n / 1024 < 256
  {
    if nIdx == 2 then [(n / 16) as byte]
    else if nIdx == 3 then [(n / 1024) as byte, (n / 4 % 256) as byte]
    else []
  }

  lemma LeftoverCounts(k: nat, q: nat, nIdx: nat)
    requires k == 4 * q + nIdx && nIdx < 4
    ensures k % 4 == nIdx && k * 3 / 4 == 3 * q + (if nIdx < 2 then 0 else nIdx - 1)
  {
  }

  lemma LeftoverTail(last: seq<sextet>, n: nat)
    requires |last| < 4 && n == Accumulated(last)
    ensures (|last| == 2 ==> n / 16 < 256) && (|last| == 3 ==> n / 1024 < 256)
    ensures Unpack(last) == Tail(n, |last|)
  {
    if |last| == 2 {
      FlushTwo(last, n);
    } else if |last| == 3 {
      FlushThree(last, n);
    }
  }

  lemma Leftover(dest: seq<byte>, before: seq<byte>, q: nat, n: nat, nIdx: nat, done: seq<sextet>)
    requires Written(dest, before, q, n, nIdx, done)
    ensures |done| % 4 == nIdx && |done| * 3 / 4 == 3 * q + (if nIdx < 2 then 0 else nIdx - 1)
    ensures (nIdx == 2 ==> n / 16 < 256) && (nIdx == 3 ==> n / 1024 < 256)
    ensures Unpack(done) == Unpack(done[..4 * q]) + Tail(n, nIdx)
  {
    LeftoverCounts(|done|, q, nIdx);
    LeftoverTail(done[4 * q..], n);
    assert done == done[..4 * q] + done[4 * q..];
    UnpackAppend(done[..4 * q], done[4 * q..], q);
  }
}
