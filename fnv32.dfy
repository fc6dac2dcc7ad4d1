/**
 * The 32-bit FNV-1 hash (Fowler–Noll–Vo, as returned by Go's `fnv.New32`)
 * and the bytes a Go string hands to it (`[]byte(addr)`, UTF-8).
 *
 * All words are unbounded integers constrained to their Go width; the
 * wrap-around of Go's `uint32` multiplication is written out as `% Two32`.
 */
module Fnv32 {

  newtype byte = x: int | 0 <= x < 0x100
  newtype uint32 = x: int | 0 <= x < 0x1_0000_0000

  const Two32: int := 0x1_0000_0000
  /** FNV-1 32-bit offset basis. */
  const OffsetBasis: uint32 := 2166136261
  /** FNV-1 32-bit prime. */
  const Prime: int := 16777619

  // ---------------------------------------------------------------------
  // One hashing step
  // ---------------------------------------------------------------------

  /** Exclusive or of two byte values. */
  function Xor8(x: int, b: byte): (r: int)
    requires 0 <= x < 256
    ensures 0 <= r < 256
  {
    ((x as bv8) ^ (b as bv8)) as int
  }

  /** A word is its high 24 bits followed by its low byte. */
  lemma SplitWord(high: int, low: int)
    requires 0 <= high < 0x100_0000 && 0 <= low < 256
    ensures 0 <= high * 256 + low < Two32
    ensures (high * 256 + low) / 256 == high && (high * 256 + low) % 256 == low
  {
  }

  /** `h ^ uint32(b)`: exclusive or of a word with a byte; it touches only the low 8 bits. */
  function XorByte(h: uint32, b: byte): (r: uint32)
    ensures r as int / 256 == h as int / 256
    ensures r as int % 256 == Xor8(h as int % 256, b)
  {
    SplitWord(h as int / 256, Xor8(h as int % 256, b));
    (h as int / 256 * 256 + Xor8(h as int % 256, b)) as uint32
  }

  /** One FNV-1 round: multiply by the prime (mod 2^32), THEN xor the byte. */
  function Step(h: uint32, b: byte): uint32
  {
    XorByte(((h as int * Prime) % Two32) as uint32, b)
  }

  // ---------------------------------------------------------------------
  // The whole hash
  // ---------------------------------------------------------------------

  /**
   * FNV-1 of `data`, by its definition: the offset basis for no bytes,
   * and one more round for every byte appended.
   */
  function Hash(data: seq<byte>): uint32
  {
    if |data| == 0 then OffsetBasis else Step(Hash(data[..|data| - 1]), data[|data| - 1])
  }

  /**
   * The state-machine view of `fnv.New32()`: `Write` absorbs its bytes
   * from the current state, first byte first.
   */
  function Absorb(h: uint32, data: seq<byte>): uint32
    decreases |data|
  {
    if |data| == 0 then h else Absorb(Step(h, data[0]), data[1..])
  }

  /** Writing `a` then `b` leaves the same state as writing `a + b`. */
  lemma {:induction false} AbsorbConcat(h: uint32, a: seq<byte>, b: seq<byte>)
    ensures Absorb(h, a + b) == Absorb(Absorb(h, a), b)
    decreases |a|
  {
    if |a| == 0 {
      assert a + b == b;
    } else {
      var h' := Step(h, a[0]);
      assert (a + b)[0] == a[0];
      assert (a + b)[1..] == a[1..] + b;
      assert Absorb(h, a + b) == Absorb(h', a[1..] + b);
      assert Absorb(h, a) == Absorb(h', a[1..]);
      AbsorbConcat(h', a[1..], b);
    }
  }

  /** Absorbing three pieces one after another is absorbing their concatenation. */
  lemma AbsorbThreeChunks(h: uint32, a: seq<byte>, b: seq<byte>, c: seq<byte>)
    ensures Absorb(h, a + b + c) == Absorb(Absorb(Absorb(h, a), b), c)
  {
    assert a + b + c == a + (b + c);
    AbsorbConcat(h, a, b + c);
    AbsorbConcat(Absorb(h, a), b, c);
  }

  /** A fresh hasher that absorbs `data` holds exactly the FNV-1 hash of `data`. */
  lemma {:induction false} AbsorbFromBasisIsHash(data: seq<byte>)
    ensures Absorb(OffsetBasis, data) == Hash(data)
  {
    if |data| > 0 {
      var init, last := data[..|data| - 1], data[|data| - 1];
      assert data == init + [last];
      AbsorbConcat(OffsetBasis, init, [last]);
      AbsorbFromBasisIsHash(init);
    }
  }

  /** What `Write` on an FNV hasher returns: the new state, the number of bytes written, and an error flag that FNV never sets. */
  datatype WriteResult = WriteResult(state: uint32, n: nat, failed: bool)

  /** `(*sum32).Write`: absorbs every byte, reports them all written and never fails. */
  function Write(state: uint32, data: seq<byte>): (r: WriteResult)
    ensures r.n == |data| && !r.failed
    ensures state == OffsetBasis ==> r.state == Hash(data)
  {
    AbsorbFromBasisIsHash(data);
    WriteResult(Absorb(state, data), |data|, false)
  }

  // ---------------------------------------------------------------------
  // The bytes of a Go string
  // ---------------------------------------------------------------------

  /** The UTF-8 encoding of one Unicode scalar value. */
  function EncodeRune(c: char): (r: seq<byte>)
    ensures 1 <= |r| <= 4
    ensures |r| == 1 <==> c as int < 0x80
    ensures |r| == 2 <==> 0x80 <= c as int < 0x800
    ensures |r| == 3 <==> 0x800 <= c as int < 0x1_0000
    ensures |r| == 4 <==> 0x1_0000 <= c as int
    ensures |r| == 1 ==> r[0] as int == c as int
    ensures |r| == 2 ==> 0xC2 <= r[0] < 0xE0
    ensures |r| == 3 ==> 0xE0 <= r[0] < 0xF0
    ensures |r| == 4 ==> 0xF0 <= r[0] < 0xF5
    ensures forall i :: 1 <= i < |r| ==> 0x80 <= r[i] < 0xC0
  {
    var v := c as int;
    if v < 0x80 then
      [v as byte]
    else if v < 0x800 then
      [(0xC0 + v / 0x40) as byte, (0x80 + v % 0x40) as byte]
    else if v < 0x1_0000 then
      [(0xE0 + v / 0x1000) as byte, (0x80 + v / 0x40 % 0x40) as byte, (0x80 + v % 0x40) as byte]
    else
      [(0xF0 + v / 0x4_0000) as byte, (0x80 + v / 0x1000 % 0x40) as byte,
       (0x80 + v / 0x40 % 0x40) as byte, (0x80 + v % 0x40) as byte]
  }

  /** The code point a well-formed UTF-8 sequence of one rune denotes. */
  function DecodeRune(r: seq<byte>): int
  {
    if |r| == 1 then r[0] as int
    else if |r| == 2 then (r[0] as int - 0xC0) * 0x40 + (r[1] as int - 0x80)
    else if |r| == 3 then ((r[0] as int - 0xE0) * 0x40 + (r[1] as int - 0x80)) * 0x40 + (r[2] as int - 0x80)
    else if |r| == 4 then
      (((r[0] as int - 0xF0) * 0x40 + (r[1] as int - 0x80)) * 0x40 + (r[2] as int - 0x80)) * 0x40 + (r[3] as int - 0x80)
    else 0
  }

  /** Decoding the encoding of a rune gives its code point back. */
  lemma EncodeRuneRoundTrip(c: char)
    ensures DecodeRune(EncodeRune(c)) == c as int
  {
    var v := c as int;
    var r := EncodeRune(c);
    SplitSixBits(v);
    SplitSixBits(v / 0x40);
    SplitSixBits(v / 0x1000);
    if 0x80 <= v < 0x800 {
      assert DecodeRune(r) == v / 0x40 * 0x40 + v % 0x40;
    } else if 0x800 <= v < 0x1_0000 {
      assert v / 0x1000 == v / 0x40 / 0x40;
      assert DecodeRune(r) == (v / 0x1000 * 0x40 + v / 0x40 % 0x40) * 0x40 + v % 0x40;
    } else if 0x1_0000 <= v {
      assert v / 0x1000 == v / 0x40 / 0x40;
      assert v / 0x4_0000 == v / 0x1000 / 0x40;
      assert DecodeRune(r) == ((v / 0x4_0000 * 0x40 + v / 0x1000 % 0x40) * 0x40 + v / 0x40 % 0x40) * 0x40 + v % 0x40;
    }
  }

  /** Splitting off the low six bits of a number and putting them back gives the number. */
  lemma SplitSixBits(v: nat)
    ensures v / 0x40 * 0x40 + v % 0x40 == v
    ensures v / 0x40 / 0x40 == v / 0x1000 && v / 0x1000 / 0x40 == v / 0x4_0000
  {
  }

  /** `[]byte(s)`: the UTF-8 bytes of a string, rune after rune. */
  function Utf8(s: string): (r: seq<byte>)
    ensures |r| >= |s|
  {
    if |s| == 0 then [] else Utf8(s[..|s| - 1]) + EncodeRune(s[|s| - 1])
  }

  /** The bytes of a string followed by one more character are the string's bytes followed by that character's. */
  lemma Utf8Snoc(s: string, c: char)
    ensures Utf8(s + [c]) == Utf8(s) + EncodeRune(c)
  {
    assert (s + [c])[..|s|] == s;
  }

  /** The bytes of a concatenation are the concatenation of the bytes, so each character is encoded on its own. */
  lemma {:induction false} Utf8Concat(a: string, b: string)
    ensures Utf8(a + b) == Utf8(a) + Utf8(b)
    decreases |b|
  {
    if |b| == 0 {
      assert a + b == a;
    } else {
      var init, last := b[..|b| - 1], b[|b| - 1];
      assert b == init + [last];
      assert a + b == (a + init) + [last];
      calc {
        Utf8(a + b);
        { Utf8Snoc(a + init, last); }
        Utf8(a + init) + EncodeRune(last);
        { Utf8Concat(a, init); }
        Utf8(a) + Utf8(init) + EncodeRune(last);
        { Utf8Snoc(init, last); }
        Utf8(a) + Utf8(b);
      }
    }
  }

  /** An ASCII string's bytes are its character codes, one byte per character. */
  lemma {:induction false} Utf8Ascii(s: string)
    requires forall i :: 0 <= i < |s| ==> s[i] as int < 0x80
    ensures |Utf8(s)| == |s|
    ensures forall i :: 0 <= i < |s| ==> Utf8(s)[i] as int == s[i] as int
  {
    if |s| > 0 {
      Utf8Ascii(s[..|s| - 1]);
    }
  }

  // ---------------------------------------------------------------------
  // Concrete values, round by round
  // ---------------------------------------------------------------------

  /** One round given by its parts: the wrapped product `m`, its low byte, and that byte xored with `b`. */
  ghost predicate RoundBy(h: uint32, b: byte, m: int, low: int, x: int, next: uint32)
  {
    && (h as int * Prime) % Two32 == m
    && m % 256 == low
    && 0 <= low < 256
    && Xor8(low, b) == x
    && next as int == m - low + x
  }

  /** A round given by its parts is the round `Step` takes. */
  lemma RoundByStep(h: uint32, b: byte, m: int, low: int, x: int, next: uint32)
    requires RoundBy(h, b, m, low, x, next)
    ensures Step(h, b) == next
  {
  }

  /**
   * The rounds of FNV-1 over `data` from state `states[0]`, written out: the
   * parts of round `i` are `products[i]`, `lows[i]` and `xors[i]`, and it leads
   * to `states[i + 1]`. Then absorbing `data` ends in the last state.
   */
  lemma {:induction false} AbsorbFromRounds(data: seq<byte>, states: seq<uint32>, products: seq<int>, lows: seq<int>, xors: seq<int>)
    requires |states| == |data| + 1 && |products| == |lows| == |xors| == |data|
    requires forall i :: 0 <= i < |data| ==> RoundBy(states[i], data[i], products[i], lows[i], xors[i], states[i + 1])
    ensures Absorb(states[0], data) == states[|data|]
    decreases |data|
  {
    if |data| > 0 {
      RoundByStep(states[0], data[0], products[0], lows[0], xors[0], states[1]);
      AbsorbFromRounds(data[1..], states[1..], products[1..], lows[1..], xors[1..]);
    }
  }

  /** The bytes of an ASCII string, given literally. */
  lemma AsciiUtf8(s: string, bytes: seq<byte>)
    requires |s| == |bytes|
    requires forall i :: 0 <= i < |s| ==> s[i] as int < 0x80 && bytes[i] as int == s[i] as int
    ensures Utf8(s) == bytes
  {
    Utf8Ascii(s);
  }

  /** Rounds 1 to 5 of FNV-1 over "192.168.0.0:80". */
  lemma FirstAddressRounds1(h: uint32, data: seq<byte>)
    requires h == 2166136261 && data == [49, 57, 50, 46, 49]
    ensures Absorb(h, data) == 936115404
  {
    var states: seq<uint32> := [2166136261, 84696366, 544649043, 1842741147, 2195808559, 936115404];
    var products: seq<int> := [84696351, 544649066, 1842741161, 2195808513, 936115453];
    var lows: seq<int> := [31, 106, 169, 1, 253];
    var xors: seq<int> := [46, 83, 155, 47, 204];
    forall i | 0 <= i < 5
      ensures RoundBy(states[i], data[i], products[i], lows[i], xors[i], states[i + 1])
    {
      if i == 0 {
        assert RoundBy(2166136261, 49, 84696351, 31, 46, 84696366);
      } else if i == 1 {
        assert RoundBy(84696366, 57, 544649066, 106, 83, 544649043);
      } else if i == 2 {
        assert RoundBy(544649043, 50, 1842741161, 169, 155, 1842741147);
      } else if i == 3 {
        assert RoundBy(1842741147, 46, 2195808513, 1, 47, 2195808559);
      } else {
        assert RoundBy(2195808559, 49, 936115453, 253, 204, 936115404);
      }
    }
    AbsorbFromRounds(data, states, products, lows, xors);
  }

  /** Rounds 6 to 10 of FNV-1 over "192.168.0.0:80". */
  lemma FirstAddressRounds2(h: uint32, data: seq<byte>)
    requires h == 936115404 && data == [54, 56, 46, 48, 46]
    ensures Absorb(h, data) == 2461573914
  {
    var states: seq<uint32> := [936115404, 2719937810, 1220266862, 3986767364, 416587900, 2461573914];
    var products: seq<int> := [2719937828, 1220266838, 3986767402, 416587852, 2461573940];
    var lows: seq<int> := [36, 86, 42, 76, 52];
    var xors: seq<int> := [18, 110, 4, 124, 26];
    forall i | 0 <= i < 5
      ensures RoundBy(states[i], data[i], products[i], lows[i], xors[i], states[i + 1])
    {
      if i == 0 {
        assert RoundBy(936115404, 54, 2719937828, 36, 18, 2719937810);
      } else if i == 1 {
        assert RoundBy(2719937810, 56, 1220266838, 86, 110, 1220266862);
      } else if i == 2 {
        assert RoundBy(1220266862, 46, 3986767402, 42, 4, 3986767364);
      } else if i == 3 {
        assert RoundBy(3986767364, 48, 416587852, 76, 124, 416587900);
      } else {
        assert RoundBy(416587900, 46, 2461573940, 52, 26, 2461573914);
      }
    }
    AbsorbFromRounds(data, states, products, lows, xors);
  }

  /** Rounds 11 to 14 of FNV-1 over "192.168.0.0:80". */
  lemma FirstAddressRounds3(h: uint32, data: seq<byte>)
    requires h == 2461573914 && data == [48, 58, 56, 48]
    ensures Absorb(h, data) == 65249880
  {
    var states: seq<uint32> := [2461573914, 313049566, 1034498112, 1364653304, 65249880];
    var products: seq<int> := [313049582, 1034498170, 1364653248, 65249896];
    var lows: seq<int> := [238, 122, 192, 104];
    var xors: seq<int> := [222, 64, 248, 88];
    forall i | 0 <= i < 4
      ensures RoundBy(states[i], data[i], products[i], lows[i], xors[i], states[i + 1])
    {
      if i == 0 {
        assert RoundBy(2461573914, 48, 313049582, 238, 222, 313049566);
      } else if i == 1 {
        assert RoundBy(313049566, 58, 1034498170, 122, 64, 1034498112);
      } else if i == 2 {
        assert RoundBy(1034498112, 56, 1364653248, 192, 248, 1364653304);
      } else {
        assert RoundBy(1364653304, 48, 65249896, 104, 88, 65249880);
      }
    }
    AbsorbFromRounds(data, states, products, lows, xors);
  }

  /** FNV-1 over the bytes of "192.168.0.0:80", chunk by chunk. */
  lemma AbsorbOfFirstTestBytes(bytes: seq<byte>)
    requires bytes == [49, 57, 50, 46, 49, 54, 56, 46, 48, 46, 48, 58, 56, 48]
    ensures Absorb(OffsetBasis, bytes) == 65249880
  {
    var front, middle, back := bytes[..5], bytes[5..10], bytes[10..];
    AbsorbThreeChunks(OffsetBasis, front, middle, back);
    FirstAddressRounds1(OffsetBasis, front);
    FirstAddressRounds2(Absorb(OffsetBasis, front), middle);
    FirstAddressRounds3(Absorb(Absorb(OffsetBasis, front), middle), back);
    assert bytes == front + middle + back;
  }

  /** FNV-1 of the address "192.168.0.0:80". */
  lemma HashOfFirstTestAddress()
    ensures Hash(Utf8("192.168.0.0:80")) == 65249880
  {
    var bytes: seq<byte> := [49, 57, 50, 46, 49, 54, 56, 46, 48, 46, 48, 58, 56, 48];
    AsciiUtf8("192.168.0.0:80", bytes);
    AbsorbOfFirstTestBytes(bytes);
    AbsorbFromBasisIsHash(bytes);
  }

  /** Rounds 1 to 5 of FNV-1 over "127.0.0.0:8080". */
  lemma SecondAddressRounds1(h: uint32, data: seq<byte>)
    requires h == 2166136261 && data == [49, 50, 55, 46, 48]
    ensures Absorb(h, data) == 1492644105
  {
    var states: seq<uint32> := [2166136261, 84696366, 544649048, 1926629311, 2246979971, 1492644105];
    var products: seq<int> := [84696351, 544649066, 1926629256, 2246980013, 1492644153];
    var lows: seq<int> := [31, 106, 136, 173, 57];
    var xors: seq<int> := [46, 88, 191, 131, 9];
    forall i | 0 <= i < 5
      ensures RoundBy(states[i], data[i], products[i], lows[i], xors[i], states[i + 1])
    {
      if i == 0 {
        assert RoundBy(2166136261, 49, 84696351, 31, 46, 84696366);
      } else if i == 1 {
        assert RoundBy(84696366, 50, 544649066, 106, 88, 544649048);
      } else if i == 2 {
        assert RoundBy(544649048, 55, 1926629256, 136, 191, 1926629311);
      } else if i == 3 {
        assert RoundBy(1926629311, 46, 2246980013, 173, 131, 2246979971);
      } else {
        assert RoundBy(2246979971, 48, 1492644153, 57, 9, 1492644105);
      }
    }
    AbsorbFromRounds(data, states, products, lows, xors);
  }

  /** Rounds 6 to 10 of FNV-1 over "127.0.0.0:8080". */
  lemma SecondAddressRounds2(h: uint32, data: seq<byte>)
    requires h == 1492644105 && data == [46, 48, 46, 48, 58]
    ensures Absorb(h, data) == 4144415393
  {
    var states: seq<uint32> := [1492644105, 391147781, 3097619183, 2514802195, 171769817, 4144415393];
    var products: seq<int> := [391147819, 3097619167, 2514802237, 171769833, 4144415387];
    var lows: seq<int> := [43, 223, 61, 233, 155];
    var xors: seq<int> := [5, 239, 19, 217, 161];
    forall i | 0 <= i < 5
      ensures RoundBy(states[i], data[i], products[i], lows[i], xors[i], states[i + 1])
    {
      if i == 0 {
        assert RoundBy(1492644105, 46, 391147819, 43, 5, 391147781);
      } else if i == 1 {
        assert RoundBy(391147781, 48, 3097619167, 223, 239, 3097619183);
      } else if i == 2 {
        assert RoundBy(3097619183, 46, 2514802237, 61, 19, 2514802195);
      } else if i == 3 {
        assert RoundBy(2514802195, 48, 171769833, 233, 217, 171769817);
      } else {
        assert RoundBy(171769817, 58, 4144415387, 155, 161, 4144415393);
      }
    }
    AbsorbFromRounds(data, states, products, lows, xors);
  }

  /** Rounds 11 to 14 of FNV-1 over "127.0.0.0:8080". */
  lemma SecondAddressRounds3(h: uint32, data: seq<byte>)
    requires h == 4144415393 && data == [56, 48, 56, 48]
    ensures Absorb(h, data) == 958394273
  {
    var states: seq<uint32> := [4144415393, 2158256971, 3452456737, 324309195, 958394273];
    var products: seq<int> := [2158257011, 3452456721, 324309235, 958394257];
    var lows: seq<int> := [115, 17, 243, 145];
    var xors: seq<int> := [75, 33, 203, 161];
    forall i | 0 <= i < 4
      ensures RoundBy(states[i], data[i], products[i], lows[i], xors[i], states[i + 1])
    {
      if i == 0 {
        assert RoundBy(4144415393, 56, 2158257011, 115, 75, 2158256971);
      } else if i == 1 {
        assert RoundBy(2158256971, 48, 3452456721, 17, 33, 3452456737);
      } else if i == 2 {
        assert RoundBy(3452456737, 56, 324309235, 243, 203, 324309195);
      } else {
        assert RoundBy(324309195, 48, 958394257, 145, 161, 958394273);
      }
    }
    AbsorbFromRounds(data, states, products, lows, xors);
  }

  /** FNV-1 over the bytes of "127.0.0.0:8080", chunk by chunk. */
  lemma AbsorbOfSecondTestBytes(bytes: seq<byte>)
    requires bytes == [49, 50, 55, 46, 48, 46, 48, 46, 48, 58, 56, 48, 56, 48]
    ensures Absorb(OffsetBasis, bytes) == 958394273
  {
    var front, middle, back := bytes[..5], bytes[5..10], bytes[10..];
    AbsorbThreeChunks(OffsetBasis, front, middle, back);
    SecondAddressRounds1(OffsetBasis, front);
    SecondAddressRounds2(Absorb(OffsetBasis, front), middle);
    SecondAddressRounds3(Absorb(Absorb(OffsetBasis, front), middle), back);
    assert bytes == front + middle + back;
  }

  /** FNV-1 of the address "127.0.0.0:8080". */
  lemma HashOfSecondTestAddress()
    ensures Hash(Utf8("127.0.0.0:8080")) == 958394273
  {
    var bytes: seq<byte> := [49, 50, 55, 46, 48, 46, 48, 46, 48, 58, 56, 48, 56, 48];
    AsciiUtf8("127.0.0.0:8080", bytes);
    AbsorbOfSecondTestBytes(bytes);
    AbsorbFromBasisIsHash(bytes);
  }

  /** Rounds 1 to 5 of FNV-1 over "26.143.218.9:80". */
  lemma ThirdAddressRounds1(h: uint32, data: seq<byte>)
    requires h == 2166136261 && data == [50, 54, 46, 49, 52]
    ensures Absorb(h, data) == 2487788566
  {
    var states: seq<uint32> := [2166136261, 84696365, 527871457, 1758705949, 575432854, 2487788566];
    var products: seq<int> := [84696351, 527871447, 1758705971, 575432871, 2487788578];
    var lows: seq<int> := [31, 215, 51, 167, 34];
    var xors: seq<int> := [45, 225, 29, 150, 22];
    forall i | 0 <= i < 5
      ensures RoundBy(states[i], data[i], products[i], lows[i], xors[i], states[i + 1])
    {
      if i == 0 {
        assert RoundBy(2166136261, 50, 84696351, 31, 45, 84696365);
      } else if i == 1 {
        assert RoundBy(84696365, 54, 527871447, 215, 225, 527871457);
      } else if i == 2 {
        assert RoundBy(527871457, 46, 1758705971, 51, 29, 1758705949);
      } else if i == 3 {
        assert RoundBy(1758705949, 49, 575432871, 167, 150, 575432854);
      } else {
        assert RoundBy(575432854, 52, 2487788578, 34, 22, 2487788566);
      }
    }
    AbsorbFromRounds(data, states, products, lows, xors);
  }

  /** Rounds 6 to 10 of FNV-1 over "26.143.218.9:80". */
  lemma ThirdAddressRounds2(h: uint32, data: seq<byte>)
    requires h == 2487788566 && data == [51, 46, 50, 49, 56]
    ensures Absorb(h, data) == 154973618
  {
    var states: seq<uint32> := [2487788566, 2220510865, 3945377389, 2677904805, 3927085710, 154973618];
    var products: seq<int> := [2220510882, 3945377347, 2677904791, 3927085759, 154973578];
    var lows: seq<int> := [162, 67, 151, 191, 138];
    var xors: seq<int> := [145, 109, 165, 142, 178];
    forall i | 0 <= i < 5
      ensures RoundBy(states[i], data[i], products[i], lows[i], xors[i], states[i + 1])
    {
      if i == 0 {
        assert RoundBy(2487788566, 51, 2220510882, 162, 145, 2220510865);
      } else if i == 1 {
        assert RoundBy(2220510865, 46, 3945377347, 67, 109, 3945377389);
      } else if i == 2 {
        assert RoundBy(3945377389, 50, 2677904791, 151, 165, 2677904805);
      } else if i == 3 {
        assert RoundBy(2677904805, 49, 3927085759, 191, 142, 3927085710);
      } else {
        assert RoundBy(3927085710, 56, 154973578, 138, 178, 154973618);
      }
    }
    AbsorbFromRounds(data, states, products, lows, xors);
  }

  /** Rounds 11 to 15 of FNV-1 over "26.143.218.9:80". */
  lemma ThirdAddressRounds3(h: uint32, data: seq<byte>)
    requires h == 154973618 && data == [46, 57, 58, 56, 48]
    ensures Absorb(h, data) == 1282104361
  {
    var states: seq<uint32> := [154973618, 1016203032, 1910582001, 913742169, 364078883, 1282104361];
    var products: seq<int> := [1016203062, 1910581960, 913742179, 364078875, 1282104345];
    var lows: seq<int> := [54, 200, 99, 27, 25];
    var xors: seq<int> := [24, 241, 89, 35, 41];
    forall i | 0 <= i < 5
      ensures RoundBy(states[i], data[i], products[i], lows[i], xors[i], states[i + 1])
    {
      if i == 0 {
        assert RoundBy(154973618, 46, 1016203062, 54, 24, 1016203032);
      } else if i == 1 {
        assert RoundBy(1016203032, 57, 1910581960, 200, 241, 1910582001);
      } else if i == 2 {
        assert RoundBy(1910582001, 58, 913742179, 99, 89, 913742169);
      } else if i == 3 {
        assert RoundBy(913742169, 56, 364078875, 27, 35, 364078883);
      } else {
        assert RoundBy(364078883, 48, 1282104345, 25, 41, 1282104361);
      }
    }
    AbsorbFromRounds(data, states, products, lows, xors);
  }

  /** FNV-1 over the bytes of "26.143.218.9:80", chunk by chunk. */
  lemma AbsorbOfThirdTestBytes(bytes: seq<byte>)
    requires bytes == [50, 54, 46, 49, 52, 51, 46, 50, 49, 56, 46, 57, 58, 56, 48]
    ensures Absorb(OffsetBasis, bytes) == 1282104361
  {
    var front, middle, back := bytes[..5], bytes[5..10], bytes[10..];
    AbsorbThreeChunks(OffsetBasis, front, middle, back);
    ThirdAddressRounds1(OffsetBasis, front);
    ThirdAddressRounds2(Absorb(OffsetBasis, front), middle);
    ThirdAddressRounds3(Absorb(Absorb(OffsetBasis, front), middle), back);
    assert bytes == front + middle + back;
  }

  /** FNV-1 of the address "26.143.218.9:80". */
  lemma HashOfThirdTestAddress()
    ensures Hash(Utf8("26.143.218.9:80")) == 1282104361
  {
    var bytes: seq<byte> := [50, 54, 46, 49, 52, 51, 46, 50, 49, 56, 46, 57, 58, 56, 48];
    AsciiUtf8("26.143.218.9:80", bytes);
    AbsorbOfThirdTestBytes(bytes);
    AbsorbFromBasisIsHash(bytes);
  }
}
