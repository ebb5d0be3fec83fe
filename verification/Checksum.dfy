/** The flash-write checksum of a bitstream padded to whole packets. */
module Checksum {

  import Arith

  type Byte = x: int | 0 <= x < 256

  datatype Result = Ok(sum: int) | StructError | DivisionByZero

  const WORD := 0x1_0000

  /** Word i, the first byte being the more significant one. */
  function WordAt(s: seq<Byte>, i: nat): (w: int)
    requires 2 * i + 1 < |s|
    ensures 0 <= w < WORD && w / 256 == s[2 * i] && w % 256 == s[2 * i + 1]
  {
    var high: int, low: int := s[2 * i], s[2 * i + 1];
    256 * high + low
  }

  /** The sum of the first n big-endian words. */
  function WordSum(s: seq<Byte>, n: nat): int
    requires 2 * n <= |s|
  {
    if n == 0 then 0 else WordSum(s, n - 1) + WordAt(s, n - 1)
  }

  /** Python's remainder has the sign of the divisor. */
  function PyMod(n: int, m: int): int
    requires m != 0
  {
    if m > 0 then n % m else -((-n) % (-m))
  }

  function Fill(n: nat): (s: seq<Byte>)
    ensures |s| == n && forall i :: 0 <= i < n ==> s[i] == 255
  {
    seq(n, _ => 255)
  }

  /** Padding bytes up to the next multiple of the packet size. */
  function PaddingLength(size: nat, packet: int): (n: nat)
    requires packet > 0
  {
    if size % packet == 0 then 0 else packet - size % packet
  }

  function Padded(s: seq<Byte>, packet: int): seq<Byte>
    requires packet > 0
  {
    s + Fill(PaddingLength(|s|, packet))
  }

  /** What the checksum is meant to be: the sum of the complete words of the padded stream, as a 16-bit word. */
  ghost function PaddedSum(s: seq<Byte>, packet: int): int
    requires packet > 0
  {
    var p := Padded(s, packet);
    WordSum(p, |p| / 2) % WORD
  }

  /** The sum of every other byte among the first 2 * n, from byte `from` on. */
  ghost function EveryOther(s: seq<Byte>, from: nat, n: nat): int
    requires from <= 1 && 2 * n <= |s|
  {
    if n == 0 then 0 else EveryOther(s, from, n - 1) + s[2 * (n - 1) + from]
  }

  /** The word sum in terms of bytes: those at even positions count 256 times. */
  lemma {:induction false} WordSumBytes(s: seq<Byte>, n: nat)
    requires 2 * n <= |s|
    ensures WordSum(s, n) == 256 * EveryOther(s, 0, n) + EveryOther(s, 1, n)
  {
    if n > 0 {
      WordSumBytes(s, n - 1);
      var w := WordAt(s, n - 1);
      assert w == 256 * (w / 256) + w % 256;
    }
  }

  /** The checksum in terms of the bytes of the padded stream: data, then 0xff up to the next whole packet. */
  ghost predicate ByteChecksum(sum: int, s: seq<Byte>, packet: int)
    requires packet > 0
  {
    exists p: seq<Byte> ::
      && s <= p && (forall i :: |s| <= i < |p| ==> p[i] == 255) && |p| % packet == 0 && |p| < |s| + packet
      && sum == (256 * EveryOther(p, 0, |p| / 2) + EveryOther(p, 1, |p| / 2)) % 65536
  }

  lemma {:induction false} PaddedSumBytes(s: seq<Byte>, packet: int)
    requires packet > 0
    ensures ByteChecksum(PaddedSum(s, packet), s, packet)
  {
    var p := Padded(s, packet);
    PaddedLength(s, packet);
    WordSumBytes(p, |p| / 2);
    assert s <= p && forall i :: |s| <= i < |p| ==> p[i] == 255;
  }

  lemma {:induction false} WordSumPrefix(s: seq<Byte>, t: seq<Byte>, n: nat)
    requires 2 * n <= |s|
    ensures WordSum(s + t, n) == WordSum(s, n)
  {
    if n > 0 {
      WordSumPrefix(s, t, n - 1);
    }
  }

  lemma {:induction false} WordSumAppend(s: seq<Byte>, t: seq<Byte>, n: nat)
    requires |s| % 2 == 0 && 2 * n <= |t|
    ensures WordSum(s + t, |s| / 2 + n) == WordSum(s, |s| / 2) + WordSum(t, n)
  {
    if n == 0 {
      WordSumPrefix(s, t, |s| / 2);
    } else {
      WordSumAppend(s, t, n - 1);
      assert WordAt(s + t, |s| / 2 + n - 1) == WordAt(t, n - 1);
    }
  }

  lemma {:induction false} WordSumFill(k: nat, n: nat)
    requires 2 * n <= k
    ensures WordSum(Fill(k), n) == 0xffff * n
  {
    if n > 0 {
      WordSumFill(k, n - 1);
    }
  }

  /** Summing the data and then counting padding words is summing the padded stream. An odd stream ends in a one-byte
      slice that does not unpack; a negative packet size pads nothing. */
  method CalculateChecksum(s: seq<Byte>, packet: int) returns (r: Result)
    ensures r.StructError? <==> |s| % 2 == 1
    ensures r.DivisionByZero? <==> |s| % 2 == 0 && packet == 0
    ensures |s| % 2 == 0 && packet > 0 ==> r == Ok(PaddedSum(s, packet))
    ensures |s| % 2 == 0 && packet < 0 ==> r == Ok(WordSum(s, |s| / 2) % WORD)
    ensures |s| % 2 == 0 && packet > 0 ==> r.Ok? && ByteChecksum(r.sum, s, packet)
  {
    var sum := 0;
    var i := 0;
    while i < |s|
      invariant 0 <= i <= |s| && i % 2 == 0
      invariant sum == WordSum(s, i / 2)
    {
      if |s[i..]| < 2 {
        return StructError;
      }
      sum := sum + WordAt(s, i / 2);
      i := i + 2;
    }
    if packet == 0 {
      return DivisionByZero;
    }
    sum := AddPadding(sum, |s|, packet);
    if packet > 0 {
      PaddedSumIs(s, packet);
      PaddedSumBytes(s, packet);
    }
    r := Ok(sum % WORD);
  }

  /** What the two loops add up. */
  ghost function Total(s: seq<Byte>, packet: int): int
    requires packet > 0
  {
    WordSum(s, |s| / 2) + 0xffff * (PaddingLength(|s|, packet) / 2)
  }

  /** The padding words; a packet size below zero gives a negative count, and no iterations. */
  method AddPadding(data: int, size: nat, packet: int) returns (sum: int)
    requires packet != 0
    ensures sum == data + 0xffff * (if packet > 0 then PaddingLength(size, packet) / 2 else 0)
  {
    sum := data;
    if PyMod(size, packet) != 0 {
      var padding := packet - PyMod(size, packet);
      var n := 0;
      while n < padding / 2
        invariant 0 <= n <= (if packet > 0 then padding / 2 else 0)
        invariant sum == data + 0xffff * n
      {
        sum := sum + 0xffff;
        n := n + 1;
      }
    }
  }

  lemma {:induction false} PaddedSumIs(s: seq<Byte>, packet: int)
    requires |s| % 2 == 0 && packet > 0
    ensures PaddedSum(s, packet) == Total(s, packet) % WORD
  {
    var k := PaddingLength(|s|, packet);
    WordSumAppend(s, Fill(k), k / 2);
    WordSumFill(k, k / 2);
    assert |Padded(s, packet)| / 2 == |s| / 2 + k / 2;
  }

  // ---------------------------------------------------------------------------------------------------------
  // Laws
  // ---------------------------------------------------------------------------------------------------------

  /** Padding reaches a whole number of packets with less than one packet of 0xff bytes. */
  lemma {:induction false} PaddedLength(s: seq<Byte>, packet: int)
    requires packet > 0
    ensures |Padded(s, packet)| % packet == 0 && |s| <= |Padded(s, packet)| < |s| + packet
  {
    Arith.RemainderRemoved(|s|, packet);
  }

  /** A stream that was padded beforehand gives the same checksum; the padded stream has to be even to be summed. */
  lemma {:induction false} PaddingTwice(s: seq<Byte>, packet: int)
    requires packet > 0
    ensures Padded(Padded(s, packet), packet) == Padded(s, packet)
    ensures PaddedSum(Padded(s, packet), packet) == PaddedSum(s, packet)
  {
    PaddedLength(s, packet);
    assert Padded(Padded(s, packet), packet) == Padded(s, packet);
  }

  /** With an even packet size the padded stream is even whenever the stream is. */
  lemma {:induction false} PaddedEven(s: seq<Byte>, packet: int)
    requires packet > 0 && packet % 2 == 0 && |s| % 2 == 0
    ensures |Padded(s, packet)| % 2 == 0
  {
    PaddedLength(s, packet);
    Arith.DividesTransitive(|Padded(s, packet)|, packet, 2);
  }

  /** Splitting at a packet boundary adds up. */
  lemma {:induction false} AdditiveAtPackets(a: seq<Byte>, b: seq<Byte>, packet: int)
    requires packet > 0 && |a| % packet == 0 && |a| % 2 == 0 && |b| % 2 == 0
    ensures PaddedSum(a + b, packet) == (PaddedSum(a, packet) + PaddedSum(b, packet)) % WORD
  {
    PaddedSumIs(a, packet);
    PaddedSumIs(b, packet);
    PaddedSumIs(a + b, packet);
    RemaindersAdd(a, b, packet);
  }

  lemma {:induction false} RemaindersAdd(a: seq<Byte>, b: seq<Byte>, packet: int)
    requires packet > 0 && |a| % packet == 0 && |a| % 2 == 0 && |b| % 2 == 0
    ensures Total(a + b, packet) % WORD == (Total(a, packet) % WORD + Total(b, packet) % WORD) % WORD
  {
    TotalAdds(a, b, packet);
    SplitSum(Total(a, packet), Total(b, packet));
  }

  lemma {:induction false} TotalAdds(a: seq<Byte>, b: seq<Byte>, packet: int)
    requires packet > 0 && |a| % packet == 0 && |a| % 2 == 0 && |b| % 2 == 0
    ensures Total(a + b, packet) == Total(a, packet) + Total(b, packet)
  {
    DataAdds(a, b);
    PaddingCarries(|a|, |b|, packet);
  }

  lemma {:induction false} DataAdds(a: seq<Byte>, b: seq<Byte>)
    requires |a| % 2 == 0 && |b| % 2 == 0
    ensures WordSum(a + b, |a + b| / 2) == WordSum(a, |a| / 2) + WordSum(b, |b| / 2)
  {
    WordSumAppend(a, b, |b| / 2);
  }

  lemma {:induction false} PaddingCarries(x: nat, y: nat, packet: int)
    requires packet > 0 && x % packet == 0
    ensures PaddingLength(x, packet) == 0 && PaddingLength(x + y, packet) == PaddingLength(y, packet)
  {
    SameRemainder(x, y, packet);
  }

  lemma {:induction false} SplitSum(x: int, y: int)
    ensures (x + y) % WORD == (x % WORD + y % WORD) % WORD
  {
  }

  lemma {:induction false} SameRemainder(x: int, y: int, packet: int)
    requires packet > 0 && x % packet == 0
    ensures (x + y) % packet == y % packet
  {
    Arith.DivModSplit(x, packet);
    Arith.DivModSplit(y, packet);
    Arith.ModUnique(x + y, packet, x / packet + y / packet, y % packet);
  }
}
