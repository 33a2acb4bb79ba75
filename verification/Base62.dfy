/**
 The printable form of an API key's secret: 32 random bytes, read as one
 big-endian number and written in base 62, always 43 characters wide.
 */
module Base62 {
  import opened Text

  type Byte = b: int | 0 <= b < 256 witness 0

  const NUMERALS := "0123456789"
  const CAPITALS := "ABCDEFGHIJKLMNOPQRSTUVWXYZ"
  const SMALLS := "abcdefghijklmnopqrstuvwxyz"
  const ALPHABET := NUMERALS + CAPITALS + SMALLS
  const WIDTH := 43
  const SECRET_BYTES := 32

  function Pow(base: nat, e: nat): nat {
    if e == 0 then 1 else base * Pow(base, e - 1)
  }

  /** big.Int.SetBytes */
  function Value(raw: seq<Byte>): nat {
    if raw == [] then 0 else 256 * Value(raw[..|raw| - 1]) + raw[|raw| - 1]
  }

  /** The last `width` base-62 digits of `n`, most significant first. */
  function Encode(n: nat, width: nat): (s: string)
    ensures |s| == width
    ensures forall c :: c in s ==> c in ALPHABET
  {
    if width == 0 then "" else Encode(n / 62, width - 1) + [ALPHABET[n % 62]]
  }

  lemma NumeralAt(d: nat)
    requires d < 10
    ensures NUMERALS[d] == '0' + d as char
  {
  }

  lemma CapitalAt(d: nat)
    requires d < 26
    ensures CAPITALS[d] == 'A' + d as char
  {
  }

  lemma SmallAt(d: nat)
    requires d < 26
    ensures SMALLS[d] == 'a' + d as char
  {
  }

  lemma ConcatAt(a: string, b: string, c: string, d: nat)
    requires d < |a| + |b| + |c|
    ensures (a + b + c)[d] == if d < |a| then a[d] else if d < |a| + |b| then b[d - |a|] else c[d - |a| - |b|]
  {
  }

  /** The character at each place of the alphabet, by arithmetic. */
  lemma AlphabetAt(d: nat)
    requires d < 62
    ensures ALPHABET[d] == if d < 10 then '0' + d as char else if d < 36 then 'A' + (d - 10) as char else 'a' + (d - 36) as char
  {
    ConcatAt(NUMERALS, CAPITALS, SMALLS, d);
    if d < 10 {
      NumeralAt(d);
    } else if d < 36 {
      CapitalAt(d - 10);
    } else {
      SmallAt(d - 36);
    }
  }

  function DigitOf(c: char): (d: nat)
    requires c in ALPHABET
    ensures d < 62 && ALPHABET[d] == c
  {
    IndexOf(ALPHABET, c)
  }

  /** The number a base-62 text spells. */
  function Decode(s: string): nat
    requires forall c :: c in s ==> c in ALPHABET
  {
    if s == "" then 0
    else
      assert s[|s| - 1] in s;
      62 * Decode(s[..|s| - 1]) + DigitOf(s[|s| - 1])
  }

  /** Fills the fixed-width text from the right while dividing the number down. */
  method EncodeBase62(raw: seq<Byte>) returns (text: string)
    ensures text == Encode(Value(raw), WIDTH)
  {
    var n := NumberOfBytes(raw);
    var out := new char[WIDTH];
    for i := WIDTH downto 0
      invariant Encode(n, i) + out[i..] == Encode(Value(raw), WIDTH)
    {
      ghost var done := out[i + 1..];
      ghost var digit := ALPHABET[n % 62];
      assert Encode(n, i + 1) == Encode(n / 62, i) + [digit];
      out[i] := ALPHABET[n % 62];
      n := n / 62;
      assert out[i..] == [digit] + done;
      assert Encode(n, i) + ([digit] + done) == (Encode(n, i) + [digit]) + done;
    }
    text := out[..];
    assert Encode(n, 0) + out[0..] == out[..];
  }

  method NumberOfBytes(raw: seq<Byte>) returns (n: nat)
    ensures n == Value(raw)
  {
    n := 0;
    for i := 0 to |raw|
      invariant n == Value(raw[..i])
    {
      assert raw[..i + 1][..i] == raw[..i];
      n := 256 * n + raw[i];
    }
    assert raw[..|raw|] == raw;
  }

  // ---------------------------------------------------------------- exactness

  lemma QuotientFits(n: nat, p: nat)
    requires n < 62 * p
    ensures n / 62 < p
  {
  }

  lemma {:induction false} DecodeIsExact(n: nat, width: nat)
    requires n < Pow(62, width)
    ensures Decode(Encode(n, width)) == n
  {
    if width > 0 {
      QuotientFits(n, Pow(62, width - 1));
      DecodeIsExact(n / 62, width - 1);
      DecodeLast(Encode(n / 62, width - 1), ALPHABET[n % 62]);
      DigitsAreDistinct(DigitOf(ALPHABET[n % 62]), n % 62);
    }
  }

  lemma DecodeLast(init: string, last: char)
    requires last in ALPHABET && forall c :: c in init ==> c in ALPHABET
    ensures forall c :: c in init + [last] ==> c in ALPHABET
    ensures Decode(init + [last]) == 62 * Decode(init) + DigitOf(last)
  {
    assert (init + [last])[..|init|] == init;
  }

  lemma DigitsAreDistinct(d: nat, e: nat)
    requires d < 62 && e < 62 && ALPHABET[d] == ALPHABET[e]
    ensures d == e
  {
    AlphabetAt(d);
    AlphabetAt(e);
  }

  lemma {:induction false} ValueIsBounded(raw: seq<Byte>)
    ensures Value(raw) < Pow(256, |raw|)
  {
    if raw != [] {
      ValueIsBounded(raw[..|raw| - 1]);
    }
  }

  lemma {:induction false} ValueIsInjective(a: seq<Byte>, b: seq<Byte>)
    requires |a| == |b| && Value(a) == Value(b)
    ensures a == b
  {
    if a != [] {
      var n := |a| - 1;
      ValueIsInjective(a[..n], b[..n]);
      assert a == a[..n] + [a[n]] && b == b[..n] + [b[n]];
    }
  }

  lemma {:induction false} PowAdd(base: nat, e: nat, f: nat)
    ensures Pow(base, e + f) == Pow(base, e) * Pow(base, f)
  {
    if e > 0 {
      PowAdd(base, e - 1, f);
      Regroup(base, Pow(base, e - 1), Pow(base, f));
    }
  }

  lemma Regroup(x: nat, y: nat, z: nat)
    ensures x * (y * z) == (x * y) * z
  {
  }

  /** 43 is the least width that holds 256 bits. */
  lemma WidthIsLeast()
    ensures Pow(62, 42) < Pow(256, SECRET_BYTES) <= Pow(62, WIDTH)
  {
    PowersOf62();
    PowersOf256();
  }

  /** Pow(base, e + f), given both factors. */
  lemma PowProduct(base: nat, e: nat, f: nat, x: nat, y: nat)
    requires Pow(base, e) == x && Pow(base, f) == y
    ensures Pow(base, e + f) == x * y
  {
    PowAdd(base, e, f);
  }

  lemma PowersOf62()
    ensures Pow(62, 42) == 1907440321293807005218825134272276737461586370979700379485518568438569631744
    ensures Pow(62, 43) == 118261299920216034323567158324881157722618355000741423528102151243191317168128
  {
    assert Pow(62, 8) == 218340105584896;
    PowProduct(62, 8, 8, 218340105584896, 218340105584896);
    PowProduct(62, 16, 16, 47672401706823533450263330816, 47672401706823533450263330816);
    PowProduct(62, 32, 8, 2272657884496751345355241563627544170162852933518655225856, 218340105584896);
    PowProduct(62, 40, 2, 496212362459367066914366580195701544604991251555593230875525121862270976, 3844);
    PowProduct(62, 42, 1, 1907440321293807005218825134272276737461586370979700379485518568438569631744, 62);
  }

  lemma PowersOf256()
    ensures Pow(256, 32) == 115792089237316195423570985008687907853269984665640564039457584007913129639936
  {
    assert Pow(256, 8) == 18446744073709551616;
    PowProduct(256, 8, 8, 18446744073709551616, 18446744073709551616);
    PowProduct(256, 16, 16, 340282366920938463463374607431768211456, 340282366920938463463374607431768211456);
  }

  /** A secret survives its rendering, so no two secrets share one. */
  lemma SecretsRoundTrip(raw: seq<Byte>)
    requires |raw| == SECRET_BYTES
    ensures |Encode(Value(raw), WIDTH)| == WIDTH
    ensures Decode(Encode(Value(raw), WIDTH)) == Value(raw)
  {
    ValueIsBounded(raw);
    WidthIsLeast();
    DecodeIsExact(Value(raw), WIDTH);
  }

  lemma SecretsStayDistinct(a: seq<Byte>, b: seq<Byte>)
    requires |a| == |b| == SECRET_BYTES
    ensures Encode(Value(a), WIDTH) == Encode(Value(b), WIDTH) <==> a == b
  {
    SecretsRoundTrip(a);
    SecretsRoundTrip(b);
    if Value(a) == Value(b) {
      ValueIsInjective(a, b);
    }
  }

  // ------------------------------------------------------------- a narrower text

  function BytesOf(n: nat, length: nat): (raw: seq<Byte>)
    ensures |raw| == length
  {
    if length == 0 then [] else BytesOf(n / 256, length - 1) + [n % 256]
  }

  lemma {:induction false} BytesRoundTrip(n: nat, length: nat)
    requires n < Pow(256, length)
    ensures Value(BytesOf(n, length)) == n
  {
    if length > 0 {
      assert n / 256 < Pow(256, length - 1);
      BytesRoundTrip(n / 256, length - 1);
      var raw := BytesOf(n, length);
      assert raw[..|raw| - 1] == BytesOf(n / 256, length - 1);
    }
  }

  lemma FactorOut(m: nat, p: nat, q: nat)
    requires q == 62 * p
    ensures m * q == 62 * (m * p)
  {
  }

  lemma LowestDigit(high: nat)
    ensures (62 * high) / 62 == high && (62 * high) % 62 == 0
  {
  }

  lemma {:induction false} HighDigitsAreLost(m: nat, width: nat)
    ensures Encode(m * Pow(62, width), width) == Encode(0, width)
  {
    if width > 0 {
      var p := Pow(62, width - 1);
      FactorOut(m, p, Pow(62, width));
      LowestDigit(m * p);
      HighDigitsAreLost(m, width - 1);
    }
  }

  lemma {:induction false} PowGrows(base: nat, e: nat, f: nat)
    requires base > 0 && e <= f
    ensures 0 < Pow(base, e) <= Pow(base, f)
    decreases f
  {
    if e < f {
      PowGrows(base, e, f - 1);
    } else if e > 0 {
      PowGrows(base, e - 1, f - 1);
    }
  }

  /** With any fewer characters two different secrets would be written the same. */
  lemma NarrowerTextsCollide(width: nat) returns (a: seq<Byte>, b: seq<Byte>)
    requires width < WIDTH
    ensures |a| == |b| == SECRET_BYTES && a != b
    ensures Encode(Value(a), width) == Encode(Value(b), width)
  {
    var n := Pow(62, width);
    PowGrows(62, width, 42);
    WidthIsLeast();
    a, b := BytesOf(0, SECRET_BYTES), BytesOf(n, SECRET_BYTES);
    BytesRoundTrip(0, SECRET_BYTES);
    BytesRoundTrip(n, SECRET_BYTES);
    HighDigitsAreLost(1, width);
  }
}
