/**
 * Regrouping of bits between 5-bit and 8-bit digits, and the addresses decoded with it
 * (internal/auth/klever.go). Digits are compared through the bit string they spell, most
 * significant bit first.
 */
module Bech32 {
  import opened Prelude

  function Pow2(k: nat): (p: nat)
    ensures p >= 1
  {
    if k == 0 then 1 else 2 * Pow2(k - 1)
  }

  /** The `k` low bits of `x`, most significant first. */
  function LowBits(x: nat, k: nat): (b: seq<bool>)
    ensures |b| == k
  {
    if k == 0 then [] else LowBits(x / 2, k - 1) + [x % 2 == 1]
  }

  /** The bit string spelled by digits of `w` bits each. */
  function Bits(digits: seq<nat>, w: nat): (b: seq<bool>)
    ensures |b| == |digits| * w
  {
    if digits == [] then [] else Bits(digits[..|digits| - 1], w) + LowBits(digits[|digits| - 1], w)
  }

  function Zeros(k: nat): seq<bool> {
    seq(k, _ => false)
  }

  ghost predicate Digits(digits: seq<nat>, w: nat) {
    forall i :: 0 <= i < |digits| ==> digits[i] < Pow2(w)
  }

  // ---------------------------------------------------------------- facts about bit strings

  lemma {:induction false} LowBitsShift(x: nat, k: nat, b: nat, f: nat)
    requires b < Pow2(f)
    ensures LowBits(x * Pow2(f) + b, k + f) == LowBits(x, k) + LowBits(b, f)
  {
    if f > 0 {
      Doubled(x, f);
      Halved(x * Pow2(f - 1), b);
      LowBitsShift(x, k, b / 2, f - 1);
      LowBitsUnfold(x * Pow2(f) + b, k + f);
      LowBitsUnfold(b, f);
      hide LowBits, Pow2;
      assert LowBits(x, k) + (LowBits(b / 2, f - 1) + [b % 2 == 1])
             == (LowBits(x, k) + LowBits(b / 2, f - 1)) + [b % 2 == 1];
    } else {
      assert LowBits(x, k) + [] == LowBits(x, k);
    }
  }

  lemma LowBitsUnfold(x: nat, k: nat)
    requires k > 0
    ensures LowBits(x, k) == LowBits(x / 2, k - 1) + [x % 2 == 1]
  {
  }

  lemma Doubled(x: nat, f: nat)
    requires f > 0
    ensures x * Pow2(f) == 2 * (x * Pow2(f - 1))
  {
    var p := Pow2(f - 1);
    assert x * (2 * p) == 2 * (x * p);
  }

  lemma Halved(h: nat, b: nat)
    ensures (2 * h + b) / 2 == h + b / 2 && (2 * h + b) % 2 == b % 2
  {
  }

  /** Bits from position `k` up do not matter to the `k` low ones. */
  lemma {:induction false} LowBitsIgnoreHigh(x: nat, q: nat, k: nat)
    ensures LowBits(x + q * Pow2(k), k) == LowBits(x, k)
  {
    if k > 0 {
      Doubled(q, k);
      Halved(q * Pow2(k - 1), x);
      LowBitsIgnoreHigh(x / 2, q, k - 1);
      LowBitsUnfold(x + q * Pow2(k), k);
      LowBitsUnfold(x, k);
      hide LowBits, Pow2;
    }
  }

  lemma {:induction false} LowBitsInjective(x: nat, y: nat, k: nat)
    requires x < Pow2(k) && y < Pow2(k) && LowBits(x, k) == LowBits(y, k)
    ensures x == y
  {
    if k > 0 {
      var u, v := LowBits(x, k), LowBits(y, k);
      assert u[..k - 1] == LowBits(x / 2, k - 1) && v[..k - 1] == LowBits(y / 2, k - 1);
      assert u[k - 1] == v[k - 1];
      LowBitsInjective(x / 2, y / 2, k - 1);
    }
  }

  lemma {:induction false} LowBitsOfZero(k: nat)
    ensures LowBits(0, k) == Zeros(k)
  {
    if k > 0 {
      LowBitsOfZero(k - 1);
    }
  }

  lemma BitsAppend(digits: seq<nat>, d: nat, w: nat)
    ensures Bits(digits + [d], w) == Bits(digits, w) + LowBits(d, w)
  {
    assert (digits + [d])[..|digits|] == digits;
  }

  lemma SplitEqual(x: seq<bool>, u: seq<bool>, y: seq<bool>, v: seq<bool>)
    requires |u| == |v| && x + u == y + v
    ensures x == y && u == v
  {
    assert |x| == |x + u| - |u| && |y| == |y + v| - |v|;
    assert (x + u)[..|x|] == x && (y + v)[..|y|] == y;
    assert (x + u)[|x|..] == u && (y + v)[|y|..] == v;
  }

  lemma {:induction false} BitsInjective(a: seq<nat>, b: seq<nat>, w: nat)
    requires Digits(a, w) && Digits(b, w) && |a| == |b| && Bits(a, w) == Bits(b, w)
    ensures a == b
  {
    if a != [] {
      var n := |a| - 1;
      SplitEqual(Bits(a[..n], w), LowBits(a[n], w), Bits(b[..n], w), LowBits(b[n], w));
      hide Bits, LowBits;
      BitsInjective(a[..n], b[..n], w);
      LowBitsInjective(a[n], b[n], w);
      assert a == a[..n] + [a[n]] && b == b[..n] + [b[n]];
    }
  }

  lemma {:induction false} Pow2Sum(i: nat, j: nat)
    ensures Pow2(i + j) == Pow2(i) * Pow2(j)
  {
    if i > 0 {
      Pow2Sum(i - 1, j);
      assert 2 * Pow2(i - 1) * Pow2(j) == 2 * (Pow2(i - 1) * Pow2(j));
    }
  }

  lemma Pow2Of32()
    ensures Pow2(32) == TWO_TO_THE_32
  {
    assert Pow2(8) == 256;
    Pow2Sum(8, 8);
    Pow2Sum(16, 16);
  }

  // ---------------------------------------------------------------- the accumulator

  /** `(acc << from) | b` on a uint32: the shift drops high bits, and its low `from` bits are free for `b`. */
  function ShiftIn(acc: nat, from: nat, b: nat): nat
    requires b < Pow2(from)
  {
    Wrap32(acc * Pow2(from)) + b
  }

  /** `(acc >> bits) & maxv` */
  function Extract(acc: nat, bits: nat, to: nat): nat {
    acc / Pow2(bits) % Pow2(to)
  }

  lemma WrapIgnored(x: nat, b: nat, k: nat)
    requires k <= 32
    ensures LowBits(Wrap32(x) + b, k) == LowBits(x + b, k)
  {
    hide LowBits, Pow2;
    var q := x / 0x1_0000_0000;
    Pow2Of32();
    Pow2Sum(32 - k, k);
    assert q * Pow2(32) == q * Pow2(32 - k) * Pow2(k);
    LowBitsIgnoreHigh(Wrap32(x) + b, q * Pow2(32 - k), k);
  }

  lemma ShiftInBits(acc: nat, bits: nat, from: nat, b: nat)
    requires b < Pow2(from) && bits + from <= 32
    ensures LowBits(ShiftIn(acc, from, b), bits + from) == LowBits(acc, bits) + LowBits(b, from)
  {
    hide LowBits, Pow2, Wrap32;
    WrapIgnored(acc * Pow2(from), b, bits + from);
    LowBitsShift(acc, bits, b, from);
  }

  lemma ExtractBits(acc: nat, bits: nat, to: nat)
    ensures Extract(acc, bits, to) < Pow2(to)
    ensures LowBits(acc, bits + to) == LowBits(Extract(acc, bits, to), to) + LowBits(acc, bits)
  {
    hide LowBits, Pow2;
    var high, low := acc / Pow2(bits), acc % Pow2(bits);
    assert acc == high * Pow2(bits) + low;
    assert high == high / Pow2(to) * Pow2(to) + high % Pow2(to);
    LowBitsShift(high, to, low, bits);
    LowBitsIgnoreHigh(low, high, bits);
    LowBitsIgnoreHigh(high % Pow2(to), high / Pow2(to), to);
  }

  /** `(acc << (to - bits)) & maxv`: the leftover bits, padded with zeros on the right. */
  lemma PaddedBits(acc: nat, bits: nat, to: nat)
    requires bits <= to <= 32
    ensures var v := Wrap32(acc * Pow2(to - bits)) % Pow2(to);
            && v < Pow2(to)
            && LowBits(v, to) == LowBits(acc, bits) + Zeros(to - bits)
            && (v == 0 <==> LowBits(acc, bits) == Zeros(bits))
  {
    hide LowBits, Pow2, Wrap32;
    var x := Wrap32(acc * Pow2(to - bits));
    var v := x % Pow2(to);
    assert x == x / Pow2(to) * Pow2(to) + v;
    LowBitsIgnoreHigh(v, x / Pow2(to), to);
    ShiftInBits(acc, bits, to - bits, 0);
    assert ShiftIn(acc, to - bits, 0) == x;
    LowBitsOfZero(to - bits);
    LowBitsOfZero(to);
    assert Zeros(to) == Zeros(bits) + Zeros(to - bits);
    if LowBits(acc, bits) == Zeros(bits) {
      LowBitsInjective(v, 0, to);
    }
    if v == 0 {
      assert LowBits(acc, bits) == LowBits(v, to)[..bits] == Zeros(bits);
    }
  }

  // ---------------------------------------------------------------- convertBits

  datatype PaddingError = InvalidPadding | NonZeroPadding

  /** The bits left after the last full group of `to` bits. */
  function Leftover(digits: seq<nat>, from: nat, to: nat): seq<bool>
    requires to > 0
  {
    var b := Bits(digits, from);
    b[|b| - |b| % to..]
  }

  /**
   * Exact regrouping: the output spells the input's bits, completed with fewer than `to` zeros when
   * padding; without padding the leftover is dropped, and must be shorter than one input digit and
   * all zero.
   */
  ghost predicate Regroups(digits: seq<nat>, from: nat, to: nat, pad: bool, r: Result<seq<nat>, PaddingError>)
    requires to > 0
  {
    var bits, left := Bits(digits, from), Leftover(digits, from, to);
    match r
    case Ok(out) =>
      && Digits(out, to)
      && if pad then |Bits(out, to)| < |bits| + to && |bits| <= |Bits(out, to)|
                     && Bits(out, to) == bits + Zeros(|Bits(out, to)| - |bits|)
         else Bits(out, to) + left == bits && left == Zeros(|left|) && |left| < from
    case Err(InvalidPadding) => !pad && |left| >= from
    case Err(NonZeroPadding) => !pad && |left| < from && left != Zeros(|left|)
  }

  lemma Nothing(from: nat, to: nat)
    ensures Digits([], to) && Bits([], to) + LowBits(0, 0) == Bits([], from)
  {
  }

  /** Shifting the next input digit into the accumulator. */
  lemma TakeDigit(data: seq<nat>, i: nat, from: nat, out: seq<nat>, to: nat, acc: nat, bits: nat)
    requires i < |data| && Digits(data, from) && bits + from <= 32
    requires Bits(out, to) + LowBits(acc, bits) == Bits(data[..i], from)
    ensures data[i] < Pow2(from)
    ensures Bits(out, to) + LowBits(ShiftIn(acc, from, data[i]), bits + from) == Bits(data[..i + 1], from)
  {
    hide LowBits, Bits, Pow2, ShiftIn;
    assert data[..i + 1] == data[..i] + [data[i]];
    BitsAppend(data[..i], data[i], from);
    ShiftInBits(acc, bits, from, data[i]);
  }

  /** Moving the top digit of the accumulator to the output. */
  lemma PutDigit(out: seq<nat>, to: nat, acc: nat, bits: nat)
    requires Digits(out, to)
    ensures var out' := out + [Extract(acc, bits, to)];
            Digits(out', to) && Bits(out', to) + LowBits(acc, bits) == Bits(out, to) + LowBits(acc, bits + to)
  {
    hide LowBits, Bits, Pow2, Extract;
    ExtractBits(acc, bits, to);
    BitsAppend(out, Extract(acc, bits, to), to);
  }

  /** What is left in the accumulator decides the outcome. */
  lemma Finish(data: seq<nat>, from: nat, to: nat, pad: bool, out: seq<nat>, acc: nat, bits: nat)
    requires bits < to <= 8 && Digits(out, to)
    requires Bits(out, to) + LowBits(acc, bits) == Bits(data, from)
    ensures var last := Wrap32(acc * Pow2(to - bits)) % Pow2(to);
            Regroups(data, from, to, pad,
                     if pad then Ok(if bits > 0 then out + [last] else out)
                     else if bits >= from then Err(InvalidPadding)
                     else if last != 0 then Err(NonZeroPadding)
                     else Ok(out))
  {
    hide LowBits, Bits, Pow2, Wrap32, Leftover;
    LeftoverIs(data, from, to, out, LowBits(acc, bits));
    PaddedBits(acc, bits, to);
    if pad {
      BitsAppend(out, Wrap32(acc * Pow2(to - bits)) % Pow2(to), to);
    }
  }

  method ConvertBits(data: seq<nat>, from: nat, to: nat, pad: bool) returns (r: Result<seq<nat>, PaddingError>)
    requires 1 <= from <= 8 && 1 <= to <= 8 && Digits(data, from)
    ensures Regroups(data, from, to, pad, r)
  {
    Nothing(from, to);
    hide *;
    var acc: nat, bits: nat := 0, 0;
    var result: seq<nat> := [];
    for i := 0 to |data|
      invariant bits < to && Digits(result, to)
      invariant Bits(result, to) + LowBits(acc, bits) == Bits(data[..i], from)
    {
      TakeDigit(data, i, from, result, to, acc, bits);
      acc := ShiftIn(acc, from, data[i]);
      bits := bits + from;
      while bits >= to
        invariant Digits(result, to)
        invariant Bits(result, to) + LowBits(acc, bits) == Bits(data[..i + 1], from)
      {
        bits := bits - to;
        PutDigit(result, to, acc, bits);
        result := result + [Extract(acc, bits, to)];
      }
    }
    assert data[..|data|] == data;
    Finish(data, from, to, pad, result, acc, bits);
    var last := Wrap32(acc * Pow2(to - bits)) % Pow2(to);
    if pad {
      if bits > 0 {
        result := result + [last];
      }
    } else if bits >= from {
      return Err(InvalidPadding);
    } else if last != 0 {
      return Err(NonZeroPadding);
    }
    r := Ok(result);
  }

  /** Fewer than `to` bits behind whole groups are the leftover. */
  lemma LeftoverIs(digits: seq<nat>, from: nat, to: nat, out: seq<nat>, left: seq<bool>)
    requires to > 0 && Bits(out, to) + left == Bits(digits, from) && |left| < to
    ensures Leftover(digits, from, to) == left
  {
    var b := Bits(digits, from);
    assert |b| == |out| * to + |left|;
    assert |b| % to == |left| by {
      SmallRemainder(|out|, to, |left|);
    }
  }

  lemma SmallRemainder(q: nat, d: nat, r: nat)
    requires r < d
    ensures (q * d + r) % d == r && (q * d + r) / d == q
  {
    var n := q * d + r;
    var p := n / d;
    assert n == p * d + n % d && 0 <= n % d < d;
    hide *;
    SameLength(p, q, d);
  }

  /** Two whole numbers of `to`-bit digits within less than one digit of each other are equal. */
  lemma SameLength(m: nat, n: nat, to: nat)
    requires m * to < n * to + to && n * to < m * to + to
    ensures m == n
  {
    MoreDigits(m, n, to);
    MoreDigits(n, m, to);
  }

  lemma MoreDigits(m: nat, n: nat, to: nat)
    ensures m < n ==> m * to + to <= n * to
  {
    if m < n {
      Distributes(m, n - m - 1, to);
    }
  }

  lemma Distributes(m: nat, k: nat, to: nat)
    ensures (m + 1 + k) * to == m * to + to + k * to && k * to >= 0
  {
  }

  /** A result of regrouping is determined by the input. */
  lemma RegroupsUnique(digits: seq<nat>, from: nat, to: nat, pad: bool,
                       r: Result<seq<nat>, PaddingError>, s: Result<seq<nat>, PaddingError>)
    requires to > 0 && Regroups(digits, from, to, pad, r) && Regroups(digits, from, to, pad, s)
    ensures r == s
  {
    hide Bits, LowBits, Pow2, Leftover;
    if r.Ok? && s.Ok? {
      var a, b, bits := r.value, s.value, Bits(digits, from);
      SameLength(|a|, |b|, to);
      if !pad {
        assert Bits(a, to) == bits[..|Bits(a, to)|] == Bits(b, to);
      }
      BitsInjective(a, b, to);
    }
  }

  /** 8-to-5 with padding, then 5-to-8 without, gives back every byte string. */
  lemma RoundTrip(data: seq<nat>, groups: seq<nat>, r: Result<seq<nat>, PaddingError>)
    requires Digits(data, 8)
    requires Regroups(data, 8, 5, true, Ok(groups)) && Regroups(groups, 5, 8, false, r)
    ensures r == Ok(data)
  {
    var bits := Bits(data, 8);
    var pad := Zeros(|Bits(groups, 5)| - |bits|);
    LeftoverIs(groups, 5, 8, data, pad);
    RegroupsUnique(groups, 5, 8, false, r, Ok(data));
  }

  // ---------------------------------------------------------------- addresses

  const CHARSET: string := "qpzry9x8gf2tvdw0s3jn54khce6mua7l"
  const HRP: string := "klv"
  const KEY_LENGTH: nat := 32

  datatype AddressError = InvalidAddress | InvalidCharacter | TooShort | BadPadding(e: PaddingError) | BadLength

  function IndexIn(s: string, c: char): (i: nat)
    ensures i <= |s| && (i < |s| ==> s[i] == c) && (i == |s| <==> c !in s)
  {
    if s == [] || s[0] == c then 0 else 1 + IndexIn(s[1..], c)
  }

  predicate IsBech32Char(c: char) {
    c in CHARSET
  }

  function CharValue(c: char): (v: nat)
    requires IsBech32Char(c)
    ensures v < 32 && CHARSET[v] == c
  {
    IndexIn(CHARSET, c)
  }

  predicate AllBech32(s: string) {
    forall i :: 0 <= i < |s| ==> IsBech32Char(s[i])
  }

  function Values(s: string): (v: seq<nat>)
    requires AllBech32(s)
    ensures |v| == |s| && Digits(v, 5)
  {
    assert Pow2(5) == 32;
    seq(|s|, i requires 0 <= i < |s| => CharValue(s[i]))
  }

  /** Different characters have different values. */
  lemma ValuesInjective(s: string, t: string)
    requires AllBech32(s) && AllBech32(t) && Values(s) == Values(t)
    ensures s == t
  {
    forall i | 0 <= i < |s|
      ensures s[i] == t[i]
    {
      assert Values(s)[i] == CharValue(s[i]) && Values(t)[i] == CharValue(t[i]);
    }
  }

  predicate IsValidKleverAddress(address: string) {
    HRP + "1" <= address && |address| == 62 && AllBech32(address[4..])
  }

  ghost predicate DecodesData(data: string, r: Result<seq<nat>, AddressError>) {
    if !AllBech32(data) then r == Err(InvalidCharacter)
    else if |data| < 7 then r == Err(TooShort)
    else match r
         case Ok(out) => Regroups(Values(data)[..|data| - 6], 5, 8, false, Ok(out))
         case Err(BadPadding(e)) => Regroups(Values(data)[..|data| - 6], 5, 8, false, Err(e))
         case Err(_) => false
  }

  method Bech32Decode5to8(data: string) returns (r: Result<seq<nat>, AddressError>)
    ensures DecodesData(data, r)
  {
    var values: seq<nat> := [];
    for i := 0 to |data|
      invariant |values| == i && AllBech32(data[..i]) && values == Values(data[..i])
    {
      var v := IndexIn(CHARSET, data[i]);
      if v == |CHARSET| {
        assert !IsBech32Char(data[i]);
        return Err(InvalidCharacter);
      }
      assert data[..i + 1] == data[..i] + [data[i]];
      values := values + [v];
    }
    assert data[..|data|] == data;
    if |values| < 7 {
      return Err(TooShort);
    }
    values := values[..|values| - 6];
    var c := ConvertBits(values, 5, 8, false);
    r := match c case Ok(out) => Ok(out) case Err(e) => Err(BadPadding(e));
  }

  ghost predicate DecodesAddress(address: string, r: Result<seq<nat>, AddressError>) {
    if !(HRP + "1" <= address) then r == Err(InvalidAddress)
    else match r
         case Ok(key) => |key| == KEY_LENGTH && DecodesData(address[4..], r)
         case Err(BadLength) => exists key :: |key| != KEY_LENGTH && DecodesData(address[4..], Ok(key))
         case Err(_) => DecodesData(address[4..], r)
  }

  method KleverAddressToPublicKey(address: string) returns (r: Result<seq<nat>, AddressError>)
    ensures DecodesAddress(address, r)
  {
    if !(HRP + "1" <= address) {
      return Err(InvalidAddress);
    }
    var data := address[|HRP| + 1..];
    r := Bech32Decode5to8(data);
    if r.Ok? && |r.value| != KEY_LENGTH {
      r := Err(BadLength);
    }
  }

  /** The 52 digits between prefix and checksum of a well-formed address. */
  function Payload(address: string): (v: seq<nat>)
    requires IsValidKleverAddress(address)
    ensures |v| == 52 && Digits(v, 5)
  {
    Values(address[4..])[..52]
  }

  /** A well-formed address spells 32 bytes and 4 more bits. */
  lemma PayloadLeftover(address: string)
    requires IsValidKleverAddress(address)
    ensures var bits := Bits(Payload(address), 5); |bits| == 260 && Leftover(Payload(address), 5, 8) == bits[256..]
  {
  }

  /** What decoding the data part of a well-formed address says about its payload. */
  lemma PayloadRegroups(address: string, r: Result<seq<nat>, AddressError>)
    requires IsValidKleverAddress(address) && DecodesData(address[4..], r)
    ensures match r
            case Ok(key) => Regroups(Payload(address), 5, 8, false, Ok(key))
            case Err(BadPadding(e)) => Regroups(Payload(address), 5, 8, false, Err(e))
            case Err(_) => false
  {
    hide Bits, LowBits, CharValue, Leftover, Regroups;
  }

  lemma PayloadValues(address: string)
    requires IsValidKleverAddress(address)
    ensures AllBech32(address[4..56]) && Payload(address) == Values(address[4..56])
  {
    hide CharValue;
  }

  /** Both decode: same key iff the 52 payload characters agree (the checksum is not looked at). */
  lemma SameKeyIff(a: string, b: string, ka: seq<nat>, kb: seq<nat>)
    requires IsValidKleverAddress(a) && IsValidKleverAddress(b)
    requires DecodesAddress(a, Ok(ka)) && DecodesAddress(b, Ok(kb))
    ensures ka == kb <==> a[4..56] == b[4..56]
  {
    PayloadRegroups(a, Ok(ka));
    PayloadRegroups(b, Ok(kb));
    PayloadValues(a);
    PayloadValues(b);
    hide Bits, LowBits, CharValue, Values, DecodesAddress, Leftover, Payload, IsValidKleverAddress;
    if ka == kb {
      PayloadLeftover(a);
      PayloadLeftover(b);
      BitsInjective(Payload(a), Payload(b), 5);
      ValuesInjective(a[4..56], b[4..56]);
    }
    if a[4..56] == b[4..56] {
      RegroupsUnique(Payload(a), 5, 8, false, Ok(ka), Ok(kb));
    }
  }

  /** The leftover of a well-formed address is the low four bits of its last payload digit. */
  lemma LastDigit(a: string)
    requires IsValidKleverAddress(a)
    ensures Leftover(Payload(a), 5, 8) == Zeros(4) <==> CharValue(a[55]) % 16 == 0
  {
    var p := Payload(a);
    var v := CharValue(a[55]);
    assert p[51] == v;
    PayloadLeftover(a);
    hide CharValue, IsValidKleverAddress, Payload;
    LastBits(p, v);
    LowFour(v);
  }

  lemma LastBits(p: seq<nat>, v: nat)
    requires |p| == 52 && p[51] == v
    ensures Bits(p, 5)[256..] == LowBits(v, 4)
  {
    ExtractBits(v, 4, 1);
    hide LowBits;
    assert Bits(p, 5) == Bits(p[..51], 5) + LowBits(v, 5);
    assert LowBits(v, 5)[1..] == LowBits(v, 4);
  }

  lemma LowFour(v: nat)
    ensures LowBits(v, 4) == Zeros(4) <==> v % 16 == 0
  {
    assert Pow2(4) == 16;
    hide LowBits, Pow2;
    LowBitsIgnoreHigh(v % 16, v / 16, 4);
    LowBitsOfZero(4);
    if LowBits(v % 16, 4) == Zeros(4) {
      LowBitsInjective(v % 16, 0, 4);
    }
  }

  /** How 260 bits regroup into bytes depends only on the four left over. */
  lemma RegroupsPayload(p: seq<nat>, r: Result<seq<nat>, PaddingError>)
    requires |p| == 52 && |Leftover(p, 5, 8)| == 4 && Regroups(p, 5, 8, false, r)
    ensures if Leftover(p, 5, 8) == Zeros(4) then r.Ok? && |r.value| == KEY_LENGTH else r == Err(NonZeroPadding)
  {
    hide LowBits, Leftover;
    if r.Ok? {
      SameLength(|r.value|, KEY_LENGTH, 8);
    }
  }

  /** Decoding the data part yields 32 bytes or the non-zero padding error. */
  lemma DecodesDataIff(a: string, r: Result<seq<nat>, AddressError>)
    requires IsValidKleverAddress(a) && DecodesData(a[4..], r)
    ensures if CharValue(a[55]) % 16 == 0 then r.Ok? && |r.value| == KEY_LENGTH
            else r == Err(BadPadding(NonZeroPadding))
  {
    LastDigit(a);
    PayloadLeftover(a);
    PayloadRegroups(a, r);
    hide Bits, Payload, CharValue, Leftover, DecodesData, Regroups, IsValidKleverAddress;
    RegroupsPayload(Payload(a), match r case Ok(key) => Ok(key) case Err(BadPadding(e)) => Err(e));
  }

  /** A well-formed address decodes iff the low four bits of its last payload character are zero. */
  lemma DecodesIff(a: string, r: Result<seq<nat>, AddressError>)
    requires IsValidKleverAddress(a) && DecodesAddress(a, r)
    ensures r.Ok? <==> CharValue(a[55]) % 16 == 0
    ensures r.Err? ==> r == Err(BadPadding(NonZeroPadding))
  {
    hide DecodesData, CharValue;
    forall d | DecodesData(a[4..], d)
      ensures if CharValue(a[55]) % 16 == 0 then d.Ok? && |d.value| == KEY_LENGTH
              else d == Err(BadPadding(NonZeroPadding))
    {
      DecodesDataIff(a, d);
    }
  }
}
