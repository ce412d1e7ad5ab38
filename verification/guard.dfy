/** The slot guard: the reconnect check, and positions as PostgreSQL prints them. */
module Guard {
  import opened Prelude

  /** What `check_reconnect` compares: a slot that was never acknowledged reads as zero. */
  function CheckReconnect(confirmedFlush: Option<Lsn>, durable: Lsn): (r: Result<bool>)
    ensures r.Err? <==> confirmedFlush.Some? && confirmedFlush.value > durable
    ensures r == Ok(false) <==> (if confirmedFlush.Some? then confirmedFlush.value else 0) == durable
  {
    var confirmed := if confirmedFlush.Some? then confirmedFlush.value else 0;
    if confirmed > durable then
      Err(SlotAhead(confirmed, durable))
    else
      Ok(confirmed < durable)
  }

  predicate SlotHealthIsTerminal(walStatus: Option<string>) {
    walStatus == Some("lost")
  }

  // Printing: two hexadecimal halves without leading zeros.

  predicate UpperDigit(c: char) {
    '0' <= c <= '9' || 'A' <= c <= 'F'
  }

  function Digit(d: nat): (c: char)
    requires d < 16
    ensures UpperDigit(c) && DigitValue(c) == Some(d)
    ensures c == '0' <==> d == 0
  {
    if d < 10 then ('0' as int + d) as char else ('A' as int + d - 10) as char
  }

  function Hex(n: nat): (s: string)
    ensures |s| > 0
  {
    if n < 16 then [Digit(n)] else Hex(n / 16) + [Digit(n % 16)]
  }

  function Show(lsn: Lsn): string {
    Hex(lsn / TWO32) + "/" + Hex(lsn % TWO32)
  }

  // Parsing: both letter cases, a leading plus sign, any number of leading zeros.

  function DigitValue(c: char): (r: Option<nat>)
    ensures r.Some? ==> r.value < 16
  {
    if '0' <= c <= '9' then Some(c as int - '0' as int)
    else if 'A' <= c <= 'F' then Some(c as int - 'A' as int + 10)
    else if 'a' <= c <= 'f' then Some(c as int - 'a' as int + 10)
    else None
  }

  const UPPER_DIGITS := "0123456789ABCDEF"
  const LOWER_DIGITS := "0123456789abcdef"

  /** Sixteen digits in their order, printed in upper case and read in either; nothing else is one. */
  lemma DigitsInOrder(d: nat, c: char)
    ensures d < 16 ==> Digit(d) == UPPER_DIGITS[d]
    ensures d < 16 ==> DigitValue(UPPER_DIGITS[d]) == DigitValue(LOWER_DIGITS[d]) == Some(d)
    ensures DigitValue(c).Some? <==> c in UPPER_DIGITS || c in LOWER_DIGITS
  {
    if DigitValue(c).Some? {
      var v := DigitValue(c).value;
      assert c == UPPER_DIGITS[v] || c == LOWER_DIGITS[v];
    }
  }

  function HexValue(s: string): Option<nat> {
    if s == "" then Some(0)
    else
      match (HexValue(s[..|s| - 1]), DigitValue(s[|s| - 1]))
      case (Some(v), Some(d)) => Some(16 * v + d)
      case _ => None
  }

  /** An unsigned 64-bit number in base 16; too large a value is a failure. */
  function FromStrRadix16(s: string): Option<u64> {
    var digits := if |s| > 1 && s[0] == '+' then s[1..] else s;
    if digits == "" then None
    else
      match HexValue(digits)
      case Some(v) => if v < TWO64 then Some(v) else None
      case None => None
  }

  function FirstSlash(s: string): (i: nat)
    ensures i <= |s|
    ensures i < |s| ==> s[i] == '/'
    ensures forall k :: 0 <= k < i ==> s[k] != '/'
  {
    if s == "" || s[0] == '/' then 0 else 1 + FirstSlash(s[1..])
  }

  /** Bitwise or of two naturals. */
  function BitOr(a: nat, b: nat): nat
    decreases a + b
  {
    if a == 0 && b == 0 then 0
    else 2 * BitOr(a / 2, b / 2) + (if a % 2 == 1 || b % 2 == 1 then 1 else 0)
  }

  function ShiftLeft32(hi: u64): u64 {
    (hi * TWO32) % TWO64
  }

  function ParseLsn(text: string): Option<nat> {
    var i := FirstSlash(text);
    if i == |text| then None
    else
      match (FromStrRadix16(text[..i]), FromStrRadix16(text[i + 1..]))
      case (Some(hi), Some(lo)) => Some(BitOr(ShiftLeft32(hi), lo))
      case _ => None
  }

  // What printing and parsing are to each other.

  predicate CanonicalHex(s: string) {
    && 1 <= |s| <= 8
    && (forall c <- s :: UpperDigit(c))
    && (|s| > 1 ==> s[0] != '0')
  }

  /** Exactly one slash, and on each side one to eight upper-case digits without a leading zero. */
  predicate Canonical(text: string) {
    var i := FirstSlash(text);
    i < |text| && CanonicalHex(text[..i]) && CanonicalHex(text[i + 1..])
  }

  function Pow16(k: nat): nat {
    if k == 0 then 1 else 16 * Pow16(k - 1)
  }

  lemma {:induction false} HexIsCanonical(n: nat, k: nat)
    requires 1 <= k && n < Pow16(k)
    ensures |Hex(n)| <= k
    ensures forall c <- Hex(n) :: UpperDigit(c)
    ensures n > 0 ==> Hex(n)[0] != '0'
    ensures HexValue(Hex(n)) == Some(n)
  {
    if n < 16 {
      assert HexValue([Digit(n)][..0]) == Some(0);
    } else {
      assert k > 1 by {
        assert Pow16(1) == 16 * Pow16(0);
      }
      HexIsCanonical(n / 16, k - 1);
      assert Hex(n)[..|Hex(n)| - 1] == Hex(n / 16);
    }
  }

  lemma DigitOfValue(c: char)
    requires UpperDigit(c)
    ensures DigitValue(c).Some? && Digit(DigitValue(c).value) == c
  {
  }

  lemma {:induction false} CanonicalHexRoundTrip(s: string)
    requires forall c <- s :: UpperDigit(c)
    requires |s| > 0 && (|s| > 1 ==> s[0] != '0')
    ensures HexValue(s).Some? && HexValue(s).value < Pow16(|s|)
    ensures Hex(HexValue(s).value) == s
    ensures s[0] != '0' ==> HexValue(s).value > 0
  {
    var front, last := s[..|s| - 1], s[|s| - 1];
    assert UpperDigit(last);
    DigitOfValue(last);
    var d := DigitValue(last).value;
    if |s| == 1 {
      assert front == "";
      assert s == [last];
      HexSnoc(0, d);
    } else {
      CanonicalHexRoundTrip(front);
      var v := HexValue(front).value;
      assert front[0] == s[0];
      assert HexValue(s) == Some(16 * v + d);
      HexSnoc(v, d);
      assert s == front + [last];
    }
  }

  lemma HexSnoc(v: nat, d: nat)
    requires d < 16
    ensures Hex(16 * v + d) == if v == 0 then [Digit(d)] else Hex(v) + [Digit(d)]
  {
    assert (16 * v + d) / 16 == v && (16 * v + d) % 16 == d;
  }

  lemma {:induction false} BitOrOfDisjoint(a: nat, b: nat, k: nat)
    requires b < Pow2(k)
    ensures BitOr(a * Pow2(k), b) == a * Pow2(k) + b
    decreases k, a
  {
    if k == 0 {
      if a > 0 {
        BitOrOfDisjoint(a / 2, b, 0);
      }
    } else {
      var h := a * Pow2(k - 1);
      assert a * Pow2(k) == 2 * h;
      BitOrOfDisjoint(a, b / 2, k - 1);
    }
  }

  function Pow2(k: nat): nat {
    if k == 0 then 1 else 2 * Pow2(k - 1)
  }

  lemma JoinHalves(hi: nat, lo: nat)
    requires hi < TWO32 && lo < TWO32
    ensures BitOr(ShiftLeft32(hi), lo) == hi * TWO32 + lo
  {
    PowersOf2();
    BitOrOfDisjoint(hi, lo, 32);
    ShiftOfHalf(hi);
  }

  lemma ShiftOfHalf(hi: nat)
    requires hi < TWO32
    ensures ShiftLeft32(hi) == hi * TWO32
  {
    assert hi * TWO32 < TWO64;
  }

  lemma PowersOf2()
    ensures Pow2(32) == TWO32
  {
    assert Pow2(4) == 16 && Pow2(8) == 256 && Pow2(12) == 4096 && Pow2(16) == 65536;
    assert Pow2(20) == 0x10_0000 && Pow2(24) == 0x100_0000 && Pow2(28) == 0x1000_0000;
  }

  lemma FirstSlashOfJoin(a: string, b: string)
    requires '/' !in a
    ensures FirstSlash(a + "/" + b) == |a|
  {
    var t := a + "/" + b;
    assert t[|a|] == '/';
    var i := FirstSlash(t);
    assert forall k :: 0 <= k < |a| ==> t[k] == a[k];
  }

  lemma HalvesOf(lsn: Lsn)
    ensures CanonicalHex(Hex(lsn / TWO32)) && CanonicalHex(Hex(lsn % TWO32))
    ensures HexValue(Hex(lsn / TWO32)) == Some(lsn / TWO32)
    ensures HexValue(Hex(lsn % TWO32)) == Some(lsn % TWO32)
    ensures Canonical(Show(lsn))
    ensures var t := Show(lsn); var i := FirstSlash(t);
            i < |t| && t[..i] == Hex(lsn / TWO32) && t[i + 1..] == Hex(lsn % TWO32)
  {
    assert Pow16(8) == TWO32 by {
      assert Pow16(4) == 65536;
    }
    var hi, lo := lsn / TWO32, lsn % TWO32;
    HexIsCanonical(hi, 8);
    HexIsCanonical(lo, 8);
    assert hi == 0 ==> Hex(hi) == "0";
    assert lo == 0 ==> Hex(lo) == "0";
    FirstSlashOfJoin(Hex(hi), Hex(lo));
    var t, i := Show(lsn), |Hex(hi)|;
    assert t[..i] == Hex(hi) && t[i + 1..] == Hex(lo);
  }

  lemma RadixOfCanonical(s: string)
    requires CanonicalHex(s)
    ensures HexValue(s).Some? && HexValue(s).value < TWO32
    ensures FromStrRadix16(s) == HexValue(s)
    ensures Hex(HexValue(s).value) == s
  {
    assert UpperDigit(s[0]);
    CanonicalHexRoundTrip(s);
    assert Pow16(8) == TWO32 by {
      assert Pow16(4) == 65536;
    }
    Pow16Monotone(|s|, 8);
  }

  lemma {:induction false} Pow16Monotone(a: nat, b: nat)
    requires a <= b
    ensures Pow16(a) <= Pow16(b)
    decreases b
  {
    if a < b {
      Pow16Monotone(a, b - 1);
    }
  }

  /** Every position survives being printed and read back. */
  lemma ParseOfShow(lsn: Lsn)
    ensures ParseLsn(Show(lsn)) == Some(lsn)
  {
    HalvesOf(lsn);
    RadixOfCanonical(Hex(lsn / TWO32));
    RadixOfCanonical(Hex(lsn % TWO32));
    JoinHalves(lsn / TWO32, lsn % TWO32);
  }

  lemma ShowIsInjective(a: Lsn, b: Lsn)
    requires Show(a) == Show(b)
    ensures a == b
  {
    ParseOfShow(a);
    ParseOfShow(b);
  }

  /** Comparing the two printed halves in order is comparing the positions. */
  lemma HalvesAgreeWithOrder(a: Lsn, b: Lsn)
    ensures a < b <==> (a / TWO32 < b / TWO32 || (a / TWO32 == b / TWO32 && a % TWO32 < b % TWO32))
  {
    assert a == a / TWO32 * TWO32 + a % TWO32;
    assert b == b / TWO32 * TWO32 + b % TWO32;
  }

  /** A text is given back by reading and printing it if and only if it is canonical. */
  lemma ShowOfParse(text: string)
    ensures (exists v: Lsn :: ParseLsn(text) == Some(v) && Show(v) == text) <==> Canonical(text)
  {
    hide ParseLsn, Show, Canonical;
    if Canonical(text) {
      var v := CanonicalIsRead(text);
    }
    if v: Lsn :| ParseLsn(text) == Some(v) && Show(v) == text {
      HalvesOf(v);
    }
  }

  lemma CanonicalIsRead(text: string) returns (v: Lsn)
    requires Canonical(text)
    ensures ParseLsn(text) == Some(v) && Show(v) == text
  {
    hide HexValue, BitOr, ShiftLeft32, CanonicalHex, Hex, FromStrRadix16;
    var i := FirstSlash(text);
    var h, l := text[..i], text[i + 1..];
    RadixOfCanonical(h);
    RadixOfCanonical(l);
    var hi, lo := HexValue(h).value, HexValue(l).value;
    JoinHalves(hi, lo);
    v := hi * TWO32 + lo;
    assert v / TWO32 == hi && v % TWO32 == lo;
    assert text == h + "/" + l;
  }

  lemma ParseOfJoin(h: string, l: string, hi: u64, lo: u64)
    requires |h| > 0 && |l| > 0
    requires (forall c <- h :: UpperDigit(c)) && (forall c <- l :: UpperDigit(c))
    requires HexValue(h) == Some(hi) && HexValue(l) == Some(lo)
    ensures ParseLsn(h + "/" + l) == Some(BitOr(ShiftLeft32(hi), lo))
  {
    assert UpperDigit(h[0]) && UpperDigit(l[0]);
    FirstSlashOfJoin(h, l);
    var t := h + "/" + l;
    assert t[..|h|] == h && t[|h| + 1..] == l;
  }

  /** Reading accepts texts that are never printed. A leading zero changes nothing, in either half
      and in either letter case, unless a sign comes after it or there was no digit at all. */
  lemma LeadingZeroIsRead(h: string, l: string)
    requires '/' !in h
    ensures h != "" && h[0] != '+' ==> ParseLsn("0" + h + "/" + l) == ParseLsn(h + "/" + l)
    ensures l != "" && l[0] != '+' ==> ParseLsn(h + "/0" + l) == ParseLsn(h + "/" + l)
  {
    hide FromStrRadix16, BitOr, ShiftLeft32, FirstSlash;
    Halves(h, l);
    Halves("0" + h, l);
    Halves(h, "0" + l);
    assert h + "/0" + l == h + "/" + ("0" + l);
    if h != "" && h[0] != '+' {
      LeadingZeroOfHalf(h);
    }
    if l != "" && l[0] != '+' {
      LeadingZeroOfHalf(l);
    }
  }

  lemma LeadingZeroOfHalf(s: string)
    requires s != "" && s[0] != '+'
    ensures FromStrRadix16("0" + s) == FromStrRadix16(s)
  {
    hide HexValue;
    LeadingZero(s);
  }

  lemma Halves(h: string, l: string)
    requires '/' !in h
    ensures var t := h + "/" + l; FirstSlash(t) == |h| && t[..|h|] == h && t[|h| + 1..] == l
  {
    FirstSlashOfJoin(h, l);
  }

  lemma {:induction false} LeadingZero(s: string)
    ensures HexValue("0" + s) == HexValue(s)
  {
    if s == "" {
      assert "0" + s == "0" && "0"[..0] == "";
    } else {
      LeadingZero(s[..|s| - 1]);
      assert ("0" + s)[..|s|] == "0" + s[..|s| - 1];
    }
  }

  /** A high half beyond 32 bits is read without an error, and its upper bits are lost. */
  lemma OverwideHighHalfIsTruncated(hi: u64, lo: u64)
    requires lo < TWO32
    ensures ParseLsn(Hex(hi) + "/" + Hex(lo)) == Some(hi % TWO32 * TWO32 + lo)
  {
    assert Pow16(16) == TWO64 by {
      assert Pow16(4) == 65536 && Pow16(8) == TWO32 && Pow16(12) == 0x1_0000_0000_0000;
    }
    HexIsCanonical(hi, 16);
    HexIsCanonical(lo, 16);
    ParseOfJoin(Hex(hi), Hex(lo), hi, lo);
    ShiftDropsUpperHalf(hi);
    JoinHalves(hi % TWO32, lo);
  }

  lemma ShiftDropsUpperHalf(hi: u64)
    ensures ShiftLeft32(hi) == ShiftLeft32(hi % TWO32)
  {
    assert hi * TWO32 == hi / TWO32 * TWO64 + hi % TWO32 * TWO32;
  }
}
