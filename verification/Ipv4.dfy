/** The address arithmetic of dhcp_config.py: dotted quads, prefix, netmask and broadcast. */
module Ipv4 {
  import opened Common
  import opened Text
  import opened Lines
  import opened Bits

  // ---------------------------------------------------------------------
  // Texts and numbers
  // ---------------------------------------------------------------------

  predicate IsDigit(c: char) {
    '0' <= c <= '9'
  }

  function DecValue(s: string): nat
    requires forall c | c in s :: IsDigit(c)
  {
    if s == "" then 0
    else
      var last := s[|s| - 1];
      assert last in s && IsDigit(last);
      DecValue(s[..|s| - 1]) * 10 + (last as int - '0' as int)
  }

  /** `int(s)` for a text of digits; anything else raises ValueError. */
  function ParseInt(s: string): Result<nat> {
    if s != "" && forall c | c in s :: IsDigit(c) then Ok(DecValue(s)) else Err(ValueError)
  }

  /** The binary digits of a number, most significant first. */
  function Binary(n: nat): seq<bool> {
    if n == 0 then [] else Binary(n / 2) + [n % 2 == 1]
  }

  function Zeros(n: nat): seq<bool> {
    seq(n, _ => false)
  }

  function Ones(n: nat): seq<bool> {
    seq(n, _ => true)
  }

  /** `format(n, '08b')` */
  function Format8(n: nat): seq<bool> {
    Zeros(if |Binary(n)| < 8 then 8 - |Binary(n)| else 0) + Binary(n)
  }

  /** `int(bits, 2)` */
  function BinValue(bits: seq<bool>): nat {
    if bits == [] then 0
    else BinValue(bits[..|bits| - 1]) * 2 + (if bits[|bits| - 1] then 1 else 0)
  }

  function ParseInts(parts: seq<string>): Result<seq<nat>> {
    if parts == [] then Ok([])
    else
      var n :- ParseInt(parts[0]);
      var ns :- ParseInts(parts[1..]);
      Ok([n] + ns)
  }

  function JoinBits(octets: seq<nat>): seq<bool> {
    if octets == [] then [] else Format8(octets[0]) + JoinBits(octets[1..])
  }

  /** The numbers between the dots. */
  function Octets(text: string): Result<seq<nat>> {
    ParseInts(Split(text, "."))
  }

  /** The bits of an address text, its octets joined. */
  function AddressBits(text: string): Result<seq<bool>> {
    var octets :- Octets(text);
    Ok(JoinBits(octets))
  }

  function AddressValue(text: string): Result<nat> {
    var bits :- AddressBits(text);
    Ok(BinValue(bits))
  }

  /** `(n >> 8 * i) & 0xff` */
  function OctetOf(n: nat, i: nat): nat {
    And(Shr(n, 8 * i), 0xff)
  }

  /** The four low octets of a number, joined by dots. */
  function DottedQuad(n: nat): string {
    Join([Dec(OctetOf(n, 3)), Dec(OctetOf(n, 2)), Dec(OctetOf(n, 1)), Dec(OctetOf(n, 0))], ".")
  }

  // ---------------------------------------------------------------------
  // The calculations
  // ---------------------------------------------------------------------

  function PrefixLength(first: string, last: string): (r: Result<int>)
    ensures r.Ok? ==> r.value <= 32
  {
    var x :- AddressValue(first);
    var y :- AddressValue(last);
    Ok(32 - BitLength(Xor(x, y)))
  }

  /** A negative prefix makes a fraction, which cannot be shifted. */
  function Netmask(prefix: int): Result<string>
    requires prefix <= 32
  {
    if prefix < 0 then Err(TypeError)
    else Ok(DottedQuad(Shl(Pow2(prefix) - 1, 32 - prefix)))
  }

  function Broadcast(subnet: string, netmask: string): Result<string> {
    var s :- AddressValue(subnet);
    var m :- AddressValue(netmask);
    Ok(DottedQuad(Or(s, Not32(m))))
  }

  /** The address with its last dotted part replaced by 0. */
  function SubnetBase(first: string): string {
    var parts := Split(first, ".");
    Join(parts[..|parts| - 1] + ["0"], ".")
  }

  // ---------------------------------------------------------------------
  // Decimal round trip
  // ---------------------------------------------------------------------

  lemma {:induction false} DecDigits(n: nat)
    ensures Dec(n) != "" && (forall c | c in Dec(n) :: IsDigit(c))
    ensures DecValue(Dec(n)) == n
  {
    var init := if n < 10 then "" else Dec(n / 10);
    var last := "0123456789"[n % 10];
    assert last as int == '0' as int + n % 10;
    assert Dec(n) == init + [last];
    assert Dec(n)[..|Dec(n)| - 1] == init;
    if n >= 10 {
      DecDigits(n / 10);
    }
  }

  lemma ParseDec(n: nat)
    ensures ParseInt(Dec(n)) == Ok(n) && '.' !in Dec(n)
  {
    DecDigits(n);
  }

  lemma SplitDot(a: string, rest: string)
    requires '.' !in a
    ensures Split(a + "." + rest, ".") == [a] + Split(rest, ".")
  {
    SplitAtChar(a, '.', rest);
  }

  lemma JoinStep(a: string, rest: seq<string>)
    requires rest != []
    ensures Join([a] + rest, ".") == a + "." + Join(rest, ".")
  {
    assert ([a] + rest)[1..] == rest;
  }

  lemma SplitDots4(a: string, b: string, c: string, d: string)
    requires '.' !in a && '.' !in b && '.' !in c && '.' !in d
    ensures Split(Join([a, b, c, d], "."), ".") == [a, b, c, d]
  {
    hide Split, Join;
    assert [a, b, c, d] == [a] + [b, c, d] && [b, c, d] == [b] + [c, d] && [c, d] == [c] + [d];
    JoinStep(a, [b, c, d]);
    JoinStep(b, [c, d]);
    JoinStep(c, [d]);
    JoinOne(d);
    SplitDot(a, Join([b, c, d], "."));
    SplitDot(b, Join([c, d], "."));
    SplitDot(c, d);
    SplitNoChar(d, '.');
    assert Split(d, ".") == [d];
  }

  lemma JoinOne(d: string)
    ensures Join([d], ".") == d
  {
  }

  // ---------------------------------------------------------------------
  // Binary round trip
  // ---------------------------------------------------------------------

  lemma {:induction false} BinaryValue(n: nat)
    ensures BinValue(Binary(n)) == n
  {
    if n > 0 {
      BinaryValue(n / 2);
      assert Binary(n)[..|Binary(n)| - 1] == Binary(n / 2);
    }
  }

  lemma {:induction false} BinaryLength(n: nat, w: nat)
    requires n < Pow2(w)
    ensures |Binary(n)| <= w
    decreases w
  {
    if n > 0 {
      BinaryLength(n / 2, w - 1);
    }
  }

  lemma {:induction false} BinConcat(a: seq<bool>, b: seq<bool>)
    ensures BinValue(a + b) == Shl(BinValue(a), |b|) + BinValue(b)
    decreases |b|
  {
    if b == [] {
      assert a + b == a;
    } else {
      assert (a + b)[..|a + b| - 1] == a + b[..|b| - 1];
      BinConcat(a, b[..|b| - 1]);
    }
  }

  lemma {:induction false} ZerosValue(n: nat)
    ensures BinValue(Zeros(n)) == 0
  {
    if n > 0 {
      assert Zeros(n)[..n - 1] == Zeros(n - 1);
      ZerosValue(n - 1);
    }
  }

  lemma {:induction false} OnesValue(n: nat)
    ensures BinValue(Ones(n)) == Pow2(n) - 1
  {
    if n > 0 {
      assert Ones(n)[..n - 1] == Ones(n - 1);
      OnesValue(n - 1);
    }
  }

  /** Bit strings of the same length and value are equal. */
  lemma {:induction false} BinInjective(a: seq<bool>, b: seq<bool>)
    requires |a| == |b| && BinValue(a) == BinValue(b)
    ensures a == b
    decreases |a|
  {
    if a != [] {
      BinInjective(a[..|a| - 1], b[..|b| - 1]);
      assert a == a[..|a| - 1] + [a[|a| - 1]] && b == b[..|b| - 1] + [b[|b| - 1]];
    }
  }

  lemma Format8Value(n: nat)
    requires n < 256
    ensures |Format8(n)| == 8 && BinValue(Format8(n)) == n
  {
    Small();
    BinaryLength(n, 8);
    BinaryValue(n);
    ZerosValue(8 - |Binary(n)|);
    ShlZero(|Binary(n)|);
    BinConcat(Zeros(8 - |Binary(n)|), Binary(n));
  }

  // ---------------------------------------------------------------------
  // Four octets
  // ---------------------------------------------------------------------

  /** The text is four numbers below 256 between dots. */
  ghost predicate IsQuad(text: string) {
    Octets(text).Ok? && var o := Octets(text).value; |o| == 4 && o[0] < 256 && o[1] < 256 && o[2] < 256 && o[3] < 256
  }

  lemma JoinBitsStep(a: nat, rest: seq<nat>)
    ensures JoinBits([a] + rest) == Format8(a) + JoinBits(rest)
  {
    assert ([a] + rest)[1..] == rest;
  }

  lemma JoinBits4(a: nat, b: nat, c: nat, d: nat)
    ensures JoinBits([a, b, c, d]) == Format8(a) + Format8(b) + Format8(c) + Format8(d)
  {
    hide Format8;
    assert [a, b, c, d] == [a] + [b, c, d] && [b, c, d] == [b] + [c, d] && [c, d] == [c] + [d] && [d] == [d] + [];
    JoinBitsStep(a, [b, c, d]);
    JoinBitsStep(b, [c, d]);
    JoinBitsStep(c, [d]);
    JoinBitsStep(d, []);
    var x, y, z, w := Format8(a), Format8(b), Format8(c), Format8(d);
    assert x + (y + (z + (w + []))) == x + y + z + w;
  }

  lemma Shl8(x: nat)
    ensures Shl(x, 8) == 256 * x
  {
    assert Shl(x, 1) == 2 * x;
    assert Shl(x, 2) == 4 * x;
    assert Shl(x, 3) == 8 * x;
    assert Shl(x, 4) == 16 * x;
    assert Shl(x, 5) == 32 * x;
    assert Shl(x, 6) == 64 * x;
    assert Shl(x, 7) == 128 * x;
  }

  lemma QuadBits(text: string)
    requires IsQuad(text)
    ensures AddressBits(text).Ok? && |AddressBits(text).value| == 32
    ensures var o := Octets(text).value;
            AddressValue(text) == Ok(((o[0] * 256 + o[1]) * 256 + o[2]) * 256 + o[3])
    ensures AddressValue(text).value < 0x1_0000_0000
  {
    var o := Octets(text).value;
    assert o == [o[0], o[1], o[2], o[3]];
    JoinBits4(o[0], o[1], o[2], o[3]);
    Format8Value(o[0]);
    Format8Value(o[1]);
    Format8Value(o[2]);
    Format8Value(o[3]);
    var ab := Format8(o[0]) + Format8(o[1]);
    BinConcat(Format8(o[0]), Format8(o[1]));
    BinConcat(ab, Format8(o[2]));
    BinConcat(ab + Format8(o[2]), Format8(o[3]));
    Shl8(o[0]);
    Shl8(o[0] * 256 + o[1]);
    Shl8((o[0] * 256 + o[1]) * 256 + o[2]);
  }

  lemma OctetLow(n: nat)
    ensures And(n, 0xff) < 256 && n == 256 * Shr(n, 8) + And(n, 0xff)
  {
    Small();
    AndOnes(n, 8);
    Shl8(Shr(n, 8));
    ShrBounds(n, 8);
  }

  /** The octets of a 32-bit number put together again. */
  lemma QuadOctets(n: nat)
    requires n < 0x1_0000_0000
    ensures OctetOf(n, 0) < 256 && OctetOf(n, 1) < 256 && OctetOf(n, 2) < 256 && OctetOf(n, 3) < 256
    ensures ((OctetOf(n, 3) * 256 + OctetOf(n, 2)) * 256 + OctetOf(n, 1)) * 256 + OctetOf(n, 0) == n
  {
    OctetLow(n);
    OctetLow(Shr(n, 8));
    OctetLow(Shr(n, 16));
    OctetLow(Shr(n, 24));
    ShrShr(n, 8, 8);
    ShrShr(n, 16, 8);
    ShrShr(n, 24, 8);
    Small();
    ShrSmall(n, 32);
  }

  /** Printing a 32-bit number as a dotted quad and reading it gives the number. */
  lemma QuadRoundTrip(n: nat)
    requires n < 0x1_0000_0000
    ensures IsQuad(DottedQuad(n)) && AddressValue(DottedQuad(n)) == Ok(n)
  {
    QuadOctets(n);
    var a, b, c, d := OctetOf(n, 3), OctetOf(n, 2), OctetOf(n, 1), OctetOf(n, 0);
    QuadParts(a, b, c, d);
    QuadBits(DottedQuad(n));
  }

  lemma QuadParts(a: nat, b: nat, c: nat, d: nat)
    ensures Octets(Join([Dec(a), Dec(b), Dec(c), Dec(d)], ".")) == Ok([a, b, c, d])
  {
    ParseDec(a);
    ParseDec(b);
    ParseDec(c);
    ParseDec(d);
    var ps := [Dec(a), Dec(b), Dec(c), Dec(d)];
    SplitDots4(ps[0], ps[1], ps[2], ps[3]);
    ParseInts4(ps[0], ps[1], ps[2], ps[3]);
  }

  lemma ParseIntsStep(p: string, rest: seq<string>)
    ensures ParseInts([p] + rest).Ok? <==> ParseInt(p).Ok? && ParseInts(rest).Ok?
    ensures ParseInts([p] + rest).Ok? ==> ParseInts([p] + rest).value == [ParseInt(p).value] + ParseInts(rest).value
  {
    assert ([p] + rest)[1..] == rest;
  }

  lemma ParseInts4(p: string, q: string, r: string, s: string)
    ensures ParseInts([p, q, r, s]).Ok? <==> ParseInt(p).Ok? && ParseInt(q).Ok? && ParseInt(r).Ok? && ParseInt(s).Ok?
    ensures ParseInts([p, q, r, s]).Ok? ==>
      ParseInts([p, q, r, s]).value == [ParseInt(p).value, ParseInt(q).value, ParseInt(r).value, ParseInt(s).value]
  {
    hide ParseInt;
    assert [p, q, r, s] == [p] + [q, r, s] && [q, r, s] == [q] + [r, s] && [r, s] == [r] + [s] && [s] == [s] + [];
    ParseIntsStep(p, [q, r, s]);
    ParseIntsStep(q, [r, s]);
    ParseIntsStep(r, [s]);
    ParseIntsStep(s, []);
  }

  lemma OctetsUnique(a: nat, b: nat, c: nat, d: nat, e: nat, f: nat, g: nat, h: nat)
    requires a < 256 && b < 256 && c < 256 && d < 256 && e < 256 && f < 256 && g < 256 && h < 256
    requires ((a * 256 + b) * 256 + c) * 256 + d == ((e * 256 + f) * 256 + g) * 256 + h
    ensures a == e && b == f && c == g && d == h
  {
  }

  lemma PrintOctets(n: nat, a: nat, b: nat, c: nat, d: nat)
    requires OctetOf(n, 3) == a && OctetOf(n, 2) == b && OctetOf(n, 1) == c && OctetOf(n, 0) == d
    ensures DottedQuad(n) == Join([Dec(a), Dec(b), Dec(c), Dec(d)], ".")
  {
    hide OctetOf, Join, Dec;
  }

  lemma QuadFrom(n: nat, a: nat, b: nat, c: nat, d: nat)
    requires a < 256 && b < 256 && c < 256 && d < 256 && n == ((a * 256 + b) * 256 + c) * 256 + d
    ensures DottedQuad(n) == Join([Dec(a), Dec(b), Dec(c), Dec(d)], ".")
  {
    hide OctetOf, DottedQuad, Join, Dec;
    QuadOctets(n);
    OctetsUnique(OctetOf(n, 3), OctetOf(n, 2), OctetOf(n, 1), OctetOf(n, 0), a, b, c, d);
    PrintOctets(n, a, b, c, d);
  }

  /** Reading a canonical quad and printing it gives the text. */
  lemma QuadCanonical(a: nat, b: nat, c: nat, d: nat)
    requires a < 256 && b < 256 && c < 256 && d < 256
    ensures var text := Join([Dec(a), Dec(b), Dec(c), Dec(d)], ".");
            AddressValue(text).Ok? && DottedQuad(AddressValue(text).value) == text
  {
    hide Join, Dec, Octets, AddressValue, DottedQuad;
    QuadParts(a, b, c, d);
    QuadBits(Join([Dec(a), Dec(b), Dec(c), Dec(d)], "."));
    QuadFrom(((a * 256 + b) * 256 + c) * 256 + d, a, b, c, d);
  }

  // ---------------------------------------------------------------------
  // Prefix and mask
  // ---------------------------------------------------------------------

  /** The prefix length is the length of the longest common prefix of the two addresses. */
  lemma PrefixIsLongestCommon(first: string, last: string)
    requires IsQuad(first) && IsQuad(last)
    ensures PrefixLength(first, last).Ok? && 0 <= PrefixLength(first, last).value <= 32
    ensures var p := PrefixLength(first, last).value;
            var a, b := AddressBits(first).value, AddressBits(last).value;
            && |a| == |b| == 32
            && forall q: nat | q <= 32 :: a[..q] == b[..q] <==> q <= p
  {
    QuadBits(first);
    QuadBits(last);
    var a, b := AddressBits(first).value, AddressBits(last).value;
    var x, y := BinValue(a), BinValue(b);
    Small();
    ShrSmall(x, 32);
    ShrSmall(y, 32);
    XorLength(x, y, 32);
    var p := PrefixLength(first, last).value;
    forall q: nat | q <= 32
      ensures a[..q] == b[..q] <==> q <= p
    {
      XorLength(x, y, 32 - q);
      ShrTakes(a, q);
      ShrTakes(b, q);
      if BinValue(a[..q]) == BinValue(b[..q]) {
        BinInjective(a[..q], b[..q]);
      }
    }
  }

  lemma {:induction false} ShrTakes(a: seq<bool>, q: nat)
    requires q <= |a|
    ensures Shr(BinValue(a), |a| - q) == BinValue(a[..q])
  {
    BinConcat(a[..q], a[q..]);
    assert a == a[..q] + a[q..];
    BinBound(a[q..]);
    ShrUnique(BinValue(a), BinValue(a[..q]), |a| - q);
  }

  lemma {:induction false} BinBound(a: seq<bool>)
    ensures BinValue(a) < Pow2(|a|)
    decreases |a|
  {
    if a != [] {
      BinBound(a[..|a| - 1]);
    }
  }

  function MaskValue(prefix: nat): nat
    requires prefix <= 32
  {
    Shl(Pow2(prefix) - 1, 32 - prefix)
  }

  lemma MaskBound(prefix: nat)
    requires prefix <= 32
    ensures MaskValue(prefix) + Pow2(32 - prefix) == 0x1_0000_0000
  {
    Small();
    PowShl(prefix, 32 - prefix);
    ShlAdd(Pow2(prefix) - 1, 1, 32 - prefix);
    ShlOne(32 - prefix);
  }

  lemma {:induction false} ShlOne(n: nat)
    ensures Shl(1, n) == Pow2(n)
  {
    if n > 0 {
      ShlOne(n - 1);
    }
  }

  /** The mask is `prefix` ones, then zeros. */
  lemma NetmaskBits(prefix: nat)
    requires prefix <= 32
    ensures Netmask(prefix).Ok? && IsQuad(Netmask(prefix).value)
    ensures AddressValue(Netmask(prefix).value) == Ok(MaskValue(prefix))
    ensures AddressBits(Netmask(prefix).value) == Ok(Ones(prefix) + Zeros(32 - prefix))
  {
    hide Shl, Pow2, DottedQuad, Octets, BinValue, JoinBits;
    MaskBound(prefix);
    QuadRoundTrip(MaskValue(prefix));
    QuadBits(Netmask(prefix).value);
    BinConcat(Ones(prefix), Zeros(32 - prefix));
    OnesValue(prefix);
    ZerosValue(32 - prefix);
    BinInjective(AddressBits(Netmask(prefix).value).value, Ones(prefix) + Zeros(32 - prefix));
  }

  lemma SameNetwork(x: nat, y: nat, z: nat, n: nat)
    requires Shr(x, n) == Shr(y, n) && (x <= z <= y || y <= z <= x)
    ensures Shr(z, n) == Shr(x, n)
  {
    if x <= z <= y {
      ShrMonotone(x, z, n);
      ShrMonotone(z, y, n);
    } else {
      ShrMonotone(y, z, n);
      ShrMonotone(z, x, n);
    }
  }

  lemma Masked(x: nat, p: nat)
    requires x < 0x1_0000_0000 && p <= 32
    ensures And(x, MaskValue(p)) == Shl(Shr(x, 32 - p), 32 - p)
  {
    Small();
    AndMask(x, p, 32 - p);
  }

  /** Equal masked values are equal networks. */
  lemma MaskedEqual(x: nat, y: nat, p: nat)
    requires x < 0x1_0000_0000 && y < 0x1_0000_0000 && p <= 32
    ensures And(x, MaskValue(p)) == And(y, MaskValue(p)) <==> Shr(x, 32 - p) == Shr(y, 32 - p)
  {
    Masked(x, p);
    Masked(y, p);
    if Shr(x, 32 - p) != Shr(y, 32 - p) {
      ShlDistinct(Shr(x, 32 - p), Shr(y, 32 - p), 32 - p);
    }
  }

  /** The mask of two addresses gives every address between them the same network, and no
      longer mask does so. */
  lemma MaskSeparates(first: string, last: string)
    requires IsQuad(first) && IsQuad(last)
    ensures PrefixLength(first, last).Ok? && 0 <= PrefixLength(first, last).value <= 32
    ensures AddressValue(first).Ok? && AddressValue(last).Ok?
    ensures var p := PrefixLength(first, last).value;
            var x, y := AddressValue(first).value, AddressValue(last).value;
            && (forall z: nat | x <= z <= y || y <= z <= x :: And(z, MaskValue(p)) == And(x, MaskValue(p)))
            && (forall q: nat | p < q <= 32 :: And(x, MaskValue(q)) != And(y, MaskValue(q)))
  {
    hide And, MaskValue, Octets, AddressBits;
    PrefixIsLongestCommon(first, last);
    QuadBits(first);
    QuadBits(last);
    var p := PrefixLength(first, last).value;
    var x, y := AddressValue(first).value, AddressValue(last).value;
    XorLength(x, y, 32 - p);
    forall z: nat | x <= z <= y || y <= z <= x
      ensures And(z, MaskValue(p)) == And(x, MaskValue(p))
    {
      SameNetwork(x, y, z, 32 - p);
      MaskedEqual(z, x, p);
    }
    forall q: nat | p < q <= 32
      ensures And(x, MaskValue(q)) != And(y, MaskValue(q))
    {
      XorLength(x, y, 32 - q);
      MaskedEqual(x, y, q);
    }
  }

  lemma ShlDistinct(a: nat, b: nat, n: nat)
    requires a != b
    ensures Shl(a, n) != Shl(b, n)
  {
    if a < b {
      ShlMonotone(a, b, n);
    } else {
      ShlMonotone(b, a, n);
    }
  }
}
