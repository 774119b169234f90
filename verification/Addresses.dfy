/** Device addresses, and the text form under which connections are indexed. */
module Addresses {
  import opened Common

  datatype RawAddress = RawAddress(a0: Octet, a1: Octet, a2: Octet, a3: Octet, a4: Octet, a5: Octet) {
    function Octets(): seq<Octet> { [a0, a1, a2, a3, a4, a5] }
  }

  const HEX_DIGITS: string := "0123456789ABCDEF"

  /** "%02X": two upper-case hexadecimal digits. */
  function Hex2(x: Octet): (s: string)
    ensures |s| == 2
  {
    [HEX_DIGITS[x / 16], HEX_DIGITS[x % 16]]
  }

  /** Octets in hexadecimal, separated by colons. */
  function HexText(octets: seq<Octet>): (s: string)
    requires octets != []
    ensures |s| == 3 * |octets| - 1
  {
    if |octets| == 1 then Hex2(octets[0]) else Hex2(octets[0]) + ":" + HexText(octets[1..])
  }

  /** "%02X:%02X:%02X:%02X:%02X:%02X" */
  function BtAddrString(a: RawAddress): string {
    HexText(a.Octets())
  }

  lemma {:induction false} HexDigitsDistinct(i: nat, j: nat)
    requires i < 16 && j < 16 && HEX_DIGITS[i] == HEX_DIGITS[j]
    ensures i == j
  {
    assert forall m: nat, n: nat | m < n < 16 :: HEX_DIGITS[m] != HEX_DIGITS[n];
  }

  lemma {:induction false} Hex2Injective(x: Octet, y: Octet)
    requires Hex2(x) == Hex2(y)
    ensures x == y
  {
    assert Hex2(x)[0] == Hex2(y)[0] && Hex2(x)[1] == Hex2(y)[1];
    HexDigitsDistinct(x / 16, y / 16);
    HexDigitsDistinct(x % 16, y % 16);
  }

  lemma {:induction false} HexTextInjective(x: seq<Octet>, y: seq<Octet>)
    requires x != [] && |x| == |y| && HexText(x) == HexText(y)
    ensures x == y
  {
    assert Hex2(x[0]) == HexText(x)[..2] == HexText(y)[..2] == Hex2(y[0]);
    Hex2Injective(x[0], y[0]);
    if |x| > 1 {
      assert HexText(x[1..]) == HexText(x)[3..] == HexText(y)[3..] == HexText(y[1..]);
      HexTextInjective(x[1..], y[1..]);
      assert x == [x[0]] + x[1..] && y == [y[0]] + y[1..];
    }
  }

  /** Two devices never share a text form. */
  lemma {:induction false} BtAddrStringInjective(a: RawAddress, b: RawAddress)
    requires BtAddrString(a) == BtAddrString(b)
    ensures a == b
  {
    var x, y := a.Octets(), b.Octets();
    HexTextInjective(x, y);
    assert x[0] == y[0] && x[1] == y[1] && x[2] == y[2] && x[3] == y[3] && x[4] == y[4] && x[5] == y[5];
  }
}
