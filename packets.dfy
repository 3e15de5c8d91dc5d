/**
 * The packet view the rules read, and the subnets that address criteria hold.
 * Packet decoding belongs to the packet library and subnet arithmetic to the
 * Apache commons-net SubnetUtils class; neither is part of this model, so both
 * are stated here only as far as the rules use them.
 */
module Packets {
  import opened Common
  import opened Text

  /** An IPv4 address as an unsigned 32-bit number. */
  type Address = x: int | 0 <= x < 0x1_0000_0000

  /** A TCP or UDP port number. */
  type Port = x: int | 0 <= x < 0x1_0000

  /**
   * What the rules ask of a packet: which headers it carries, the IPv4
   * addresses, and the ports of its TCP or UDP header.
   */
  datatype Packet = Packet(
    hasIPv4: bool, hasTCP: bool, hasUDP: bool,
    srcAddr: Address, dstAddr: Address,
    srcPort: Port, dstPort: Port)

  type PrefixLength = x: int | 0 <= x <= 32

  /** A subnet written "a.b.c.d/n": any address of it and the prefix length. */
  datatype Subnet = Subnet(address: Address, prefix: PrefixLength)

  function Pow2(n: nat): (r: nat)
    ensures r >= 1
  {
    if n == 0 then 1 else 2 * Pow2(n - 1)
  }

  /** The number of addresses the subnet spans. */
  function BlockSize(s: Subnet): nat {
    Pow2(32 - s.prefix)
  }

  /** The subnet's network address: its address with the host bits cleared. */
  function Network(s: Subnet): int {
    s.address - s.address % BlockSize(s)
  }

  /** The subnet's broadcast address: its address with the host bits set. */
  function Broadcast(s: Subnet): int {
    Network(s) + BlockSize(s) - 1
  }

  /**
   * SubnetInfo.isInRange as the rules call it (inclusive host count off):
   * the usable host addresses, strictly between the network and the
   * broadcast address; a /31 or /32 subnet has none.
   */
  predicate InRange(s: Subnet, a: Address) {
    BlockSize(s) > 2 && Network(s) < a < Broadcast(s)
  }

  /** One number of the CIDR pattern: 1 to `width` ASCII digits. */
  predicate IsNumberField(s: string, width: nat) {
    1 <= |s| <= width && AllDigits(s)
  }

  function Octet(s: string): Option<nat> {
    if IsNumberField(s, 3) && DigitsValue(s) <= 255 then Some(DigitsValue(s)) else None
  }

  /**
   * new SubnetUtils(text): the text must read "a.b.c.d/n" with 1-3 digits per
   * octet, each at most 255, and 1-2 digits of prefix, at most 32.
   * None stands for the IllegalArgumentException the library throws.
   */
  function ParseCidr(text: string): Option<Subnet> {
    var halves := SplitOn(text, '/');
    if |halves| != 2 then None
    else
      var quads := SplitOn(halves[0], '.');
      if |quads| != 4 then None
      else CidrOf(quads[0], quads[1], quads[2], quads[3], halves[1])
  }

  /** The subnet that four octet texts and a prefix text denote, if they are in range. */
  function CidrOf(q0: string, q1: string, q2: string, q3: string, p: string): Option<Subnet> {
    var o0, o1, o2, o3 := Octet(q0), Octet(q1), Octet(q2), Octet(q3);
    if o0.None? || o1.None? || o2.None? || o3.None? then None
    else if !IsNumberField(p, 2) || DigitsValue(p) > 32 then None
    else
      Some(Subnet(o0.value * 0x100_0000 + o1.value * 0x1_0000 + o2.value * 0x100 + o3.value,
                  DigitsValue(p)))
  }

  // ---------------------------------------------------------------- lemmas

  lemma MulMonotone(x: int, y: int, b: nat)
    requires x <= y
    ensures x * b <= y * b
  {
    assert y * b == x * b + (y - x) * b;
  }

  /** Euclidean division is determined by its quotient and remainder. */
  lemma DivModOf(a: int, b: int, q: int, r: int)
    requires b > 0 && a == q * b + r && 0 <= r < b
    ensures a / b == q && a % b == r
  {
    var q0 := a / b;
    assert a == q0 * b + a % b;
    if q0 < q {
      MulMonotone(q0 + 1, q, b);
      assert false;
    } else if q < q0 {
      MulMonotone(q + 1, q0, b);
      assert false;
    }
  }

  lemma {:induction false} Pow2Add(m: nat, n: nat)
    ensures Pow2(m + n) == Pow2(m) * Pow2(n)
  {
    if m > 0 {
      Pow2Add(m - 1, n);
      assert Pow2(m + n) == 2 * Pow2(m - 1 + n);
    }
  }

  lemma Pow2Values()
    ensures Pow2(8) == 0x100 && Pow2(16) == 0x1_0000 && Pow2(32) == 0x1_0000_0000
  {
    assert Pow2(4) == 16;
    Pow2Add(4, 4);
    Pow2Add(8, 8);
    Pow2Add(16, 16);
  }

  /**
   * An address is in range exactly when it lies in the subnet's block (its
   * network bits are the subnet's) and its host part is neither all zeros
   * nor all ones.
   */
  lemma InRangeIff(s: Subnet, a: Address)
    ensures InRange(s, a) <==>
      BlockSize(s) > 2 && a / BlockSize(s) == s.address / BlockSize(s)
      && a % BlockSize(s) != 0 && a % BlockSize(s) != BlockSize(s) - 1
  {
    var b := BlockSize(s);
    var q := s.address / b;
    assert s.address == q * b + s.address % b;
    assert Network(s) == q * b;
    if InRange(s, a) {
      DivModOf(a, b, q, a - q * b);
    }
    if a / b == q {
      assert a == q * b + a % b;
    }
  }

  /** A /31 or /32 subnet contains no address. */
  lemma NarrowSubnetIsEmpty(s: Subnet, a: Address)
    requires s.prefix >= 31
    ensures !InRange(s, a)
  {
  }

  /** 0.0.0.0/0 holds every address but 0.0.0.0 and 255.255.255.255. */
  lemma WholeSpaceSubnet(s: Subnet, a: Address)
    requires s.prefix == 0
    ensures InRange(s, a) <==> 0 < a < 0xFFFF_FFFF
  {
    Pow2Values();
    DivModOf(s.address, BlockSize(s), 0, s.address);
  }

  /** The canonical "a.b.c.d/n" text of a subnet (the inverse of ParseCidr). */
  function CidrText(s: Subnet): string {
    var a1 := s.address / 0x100;
    var a2 := a1 / 0x100;
    QuadText(NatText(a2 / 0x100), NatText(a2 % 0x100), NatText(a1 % 0x100), NatText(s.address % 0x100))
      + ['/'] + NatText(s.prefix)
  }

  lemma NatTextWidth(n: nat)
    ensures n < 100 ==> |NatText(n)| <= 2
    ensures n < 1000 ==> |NatText(n)| <= 3
  {
  }

  lemma DigitsHaveNo(s: string, c: char)
    requires AllDigits(s) && !IsDigit(c)
    ensures c !in s
  {
  }

  /** A number of up to three digits and at most 255 is an octet. */
  lemma OctetText(n: nat)
    requires n <= 255
    ensures Octet(NatText(n)) == Some(n)
  {
    NatTextWidth(n);
  }

  /** The dotted-quad text of four numbers. */
  function QuadText(t0: string, t1: string, t2: string, t3: string): string {
    t0 + ['.'] + (t1 + ['.'] + (t2 + ['.'] + t3))
  }

  /** Splitting "t0.t1.t2.t3" at '.' gives back the four numbers. */
  lemma QuadSplits(t0: string, t1: string, t2: string, t3: string)
    requires '.' !in t0 && '.' !in t1 && '.' !in t2 && '.' !in t3
    ensures SplitOn(QuadText(t0, t1, t2, t3), '.') == [t0, t1, t2, t3]
  {
    var r2 := t2 + ['.'] + t3;
    assert SplitOn(r2, '.') == [t2, t3] by {
      SplitOnJoin(t2, t3, '.');
      SplitOnAbsent(t3, '.');
    }
    var r1 := t1 + ['.'] + r2;
    assert SplitOn(r1, '.') == [t1, t2, t3] by {
      SplitOnJoin(t1, r2, '.');
    }
    SplitOnJoin(t0, r1, '.');
  }

  /** Splitting "t0.t1.t2.t3/tp" at '/' and then at '.' gives back the five numbers. */
  lemma CidrSplits(t0: string, t1: string, t2: string, t3: string, tp: string)
    requires AllDigits(t0) && AllDigits(t1) && AllDigits(t2) && AllDigits(t3) && AllDigits(tp)
    ensures ParseCidr(QuadText(t0, t1, t2, t3) + ['/'] + tp) == CidrOf(t0, t1, t2, t3, tp)
  {
    var quad := QuadText(t0, t1, t2, t3);
    assert SplitOn(quad + ['/'] + tp, '/') == [quad, tp] by {
      DigitsHaveNo(t0, '/'); DigitsHaveNo(t1, '/'); DigitsHaveNo(t2, '/'); DigitsHaveNo(t3, '/');
      DigitsHaveNo(tp, '/');
      assert '/' !in quad;
      SplitOnJoin(quad, tp, '/');
      SplitOnAbsent(tp, '/');
    }
    assert SplitOn(quad, '.') == [t0, t1, t2, t3] by {
      DigitsHaveNo(t0, '.'); DigitsHaveNo(t1, '.'); DigitsHaveNo(t2, '.'); DigitsHaveNo(t3, '.');
      QuadSplits(t0, t1, t2, t3);
    }
  }

  /** Reading a subnet's canonical text gives the subnet back. */
  lemma ParseCidrText(s: Subnet)
    ensures ParseCidr(CidrText(s)) == Some(s)
  {
    var a := s.address;
    var a1 := a / 0x100;
    var a2 := a1 / 0x100;
    var o0, o1, o2, o3 := a2 / 0x100, a2 % 0x100, a1 % 0x100, a % 0x100;
    CidrSplits(NatText(o0), NatText(o1), NatText(o2), NatText(o3), NatText(s.prefix));
    OctetText(o0); OctetText(o1); OctetText(o2); OctetText(o3);
    NatTextWidth(s.prefix);
    assert a == a1 * 0x100 + o3;
    assert a1 == a2 * 0x100 + o2;
    assert a2 == o0 * 0x100 + o1;
  }

  lemma ThreeDigits(a: char, b: char, c: char)
    requires IsDigit(a) && IsDigit(b) && IsDigit(c)
    ensures AllDigits([a, b, c])
    ensures DigitsValue([a, b, c]) == 100 * DigitValue(a) + 10 * DigitValue(b) + DigitValue(c)
  {
    assert [a, b, c][..2] == [a, b];
    assert [a, b][..1] == [a];
    assert [a][..0] == [];
    assert DigitsValue([a]) == DigitValue(a);
    assert DigitsValue([a, b]) == 10 * DigitValue(a) + DigitValue(b);
  }

  /** "0.0.0.0/0", the whole address space, as the rule-list tests write it. */
  lemma ParseWholeSpace()
    ensures ParseCidr("0.0.0.0/0") == Some(Subnet(0, 0))
  {
    assert QuadText("0", "0", "0", "0") == ['0', '.', '0', '.', '0', '.', '0'];
    assert "0.0.0.0/0" == ['0', '.', '0', '.', '0', '.', '0'] + ['/'] + ['0'];
    CidrSplits("0", "0", "0", "0", "0");
  }

  lemma LocalNetFields()
    ensures CidrOf("192", "168", "1", "0", "24") == Some(Subnet(0xC0A8_0100, 24))
  {
    ThreeDigits('1', '9', '2');
    ThreeDigits('1', '6', '8');
    assert "192" == ['1', '9', '2'];
    assert "168" == ['1', '6', '8'];
    assert "24"[..1] == "2";
  }

  /** "192.168.1.0/24", the local network of the rule-list tests. */
  lemma ParseLocalNet()
    ensures ParseCidr("192.168.1.0/24") == Some(Subnet(0xC0A8_0100, 24))
  {
    assert QuadText("192", "168", "1", "0") == ['1', '9', '2', '.', '1', '6', '8', '.', '1', '.', '0'];
    assert "192.168.1.0/24" == ['1', '9', '2', '.', '1', '6', '8', '.', '1', '.', '0'] + ['/'] + ['2', '4'];
    CidrSplits("192", "168", "1", "0", "24");
    LocalNetFields();
  }
}
