/** The Internet checksum and the ICMP echo packet that carries it: src/socket.c, section 1 of RFC 1071. */
module Checksum {
  import opened Bytes

  const UINT32: nat := 0x1_0000_0000

  /** The plain sum of the 16-bit words, an odd last byte padded with zero. */
  function WordSum(data: seq<byte>): nat {
    if data == [] then 0
    else if |data| == 1 then Word(data[0], 0)
    else Word(data[0], data[1]) + WordSum(data[2..])
  }

  /** Two bytes make a word, the first one its high half; so does an odd last byte. */
  lemma {:induction false} WordSumMeaning(a: seq<byte>, b: seq<byte>, x: byte, y: byte)
    requires |a| % 2 == 0
    ensures WordSum([x, y]) == 256 * x as nat + y && WordSum([x]) == 256 * x as nat && WordSum([]) == 0
    ensures WordSum(a + b) == WordSum(a) + WordSum(b)
  {
    assert [x, y][2..] == [];
    if a == [] {
      assert a + b == b;
    } else {
      WordSumMeaning(a[2..], b, x, y);
      assert (a + b)[2..] == a[2..] + b;
    }
  }

  /** One's complement addition: the carry out of bit 15 comes back in at bit 0. */
  function OnesAdd(a: nat, b: nat): (c: nat)
    requires a < 65536 && b < 65536
    ensures c < 65536
  {
    if a + b < 65536 then a + b else a + b - 65535
  }

  /** The one's complement sum of the words. */
  function OnesSum(data: seq<byte>): (c: nat)
    ensures c < 65536
  {
    if data == [] then 0
    else if |data| == 1 then Word(data[0], 0)
    else OnesAdd(Word(data[0], data[1]), OnesSum(data[2..]))
  }

  /** The 16-bit representative of n with 2^16 identified with 1; zero only for zero. */
  function Residue(n: nat): (r: nat)
    ensures r < 65536 && (r == 0 <==> n == 0)
  {
    if n < 65536 then n else Residue(n - 65535)
  }

  /** It is congruent to n modulo 65535. */
  lemma {:induction false} ResidueMeaning(n: nat) returns (k: nat)
    ensures n == Residue(n) + 65535 * k
  {
    k := 0;
    if n >= 65536 {
      k := ResidueMeaning(n - 65535);
      k := k + 1;
    }
  }

  /** One round of the carry fold. */
  function Fold(n: nat): nat { n % 65536 + n / 65536 }

  lemma {:induction false} ResidueShift(n: nat, k: nat)
    requires n > 0
    ensures Residue(n + 65535 * k) == Residue(n)
  {
    if k > 0 {
      ResidueShift(n, k - 1);
    }
  }

  lemma {:induction false} FoldKeepsResidue(n: nat)
    ensures Residue(Fold(n)) == Residue(n)
  {
    if n != 0 {
      ResidueShift(Fold(n), n / 65536);
    }
  }

  lemma {:induction false} AddKeepsResidue(a: nat, n: nat)
    requires a < 65536
    ensures OnesAdd(a, Residue(n)) == Residue(a + n)
  {
    if n >= 65536 {
      AddKeepsResidue(a, n - 65535);
    }
  }

  /** The end-around-carry sum depends on the plain sum alone. */
  lemma {:induction false} OnesSumIsResidue(data: seq<byte>)
    ensures OnesSum(data) == Residue(WordSum(data))
  {
    if |data| > 1 {
      OnesSumIsResidue(data[2..]);
      AddKeepsResidue(Word(data[0], data[1]), WordSum(data[2..]));
    }
  }

  lemma {:induction false} WordSumBound(data: seq<byte>, words: nat)
    requires |data| <= 2 * words
    ensures WordSum(data) <= 65535 * words
  {
    if |data| > 1 {
      WordSumBound(data[2..], words - 1);
    }
  }

  function AllOnes(n: nat): seq<byte> { seq(n, _ => 255) }

  lemma {:induction false} AllOnesSum(n: nat)
    ensures WordSum(AllOnes(n)) == 65535 * (n / 2) + n % 2 * 65280
  {
    if n > 1 {
      AllOnesSum(n - 2);
      assert AllOnes(n)[2..] == AllOnes(n - 2);
    }
  }

  /** 131074 bytes is exactly the length up to which the 32-bit sum cannot wrap around. */
  lemma {:induction false} NoWrapIff(n: nat)
    ensures n <= 131074 <==> forall data: seq<byte> :: |data| == n ==> WordSum(data) < UINT32
  {
    forall data: seq<byte> | |data| == n && n <= 131074 ensures WordSum(data) < UINT32 {
      WordSumBound(data, 65537);
    }
    if n > 131074 {
      AllOnesSum(n);
      assert |AllOnes(n)| == n;
    }
  }

  /** What the function returns for every length, wrap-around included. */
  function InternetChecksum(data: seq<byte>): (c: nat)
    ensures c < 65536
  {
    65535 - Residue(WordSum(data) % UINT32)
  }

  lemma {:induction false} ChecksumMeaning(data: seq<byte>)
    ensures InternetChecksum(data) == 65535 - Residue(WordSum(data) % 4294967296)
  {
  }

  lemma {:induction false} WrapUnique(n: nat, wraps: nat, sum: nat)
    requires n == sum + UINT32 * wraps && sum < UINT32
    ensures n % UINT32 == sum
  {
  }

  lemma {:induction false} NoWrap(data: seq<byte>)
    requires |data| <= 131074
    ensures InternetChecksum(data) == 65535 - Residue(WordSum(data))
  {
    WordSumBound(data, 65537);
    WrapUnique(WordSum(data), 0, WordSum(data));
  }

  /** uint32_t addition. */
  function Add32(a: nat, b: nat): (c: nat)
    requires a < UINT32 && b < UINT32
    ensures c < UINT32 && (c == a + b || c == a + b - UINT32)
  {
    (a + b) % UINT32
  }

  /** The adding loop and the odd byte after it. */
  method SumWords(data: array<byte>) returns (sum: nat)
    ensures sum == WordSum(data[..]) % UINT32
  {
    sum := 0;
    var i := 0;
    ghost var wraps := 0;
    while i + 1 < data.Length
      invariant i <= data.Length && sum < UINT32
      invariant sum + UINT32 * wraps + WordSum(data[i..]) == WordSum(data[..])
    {
      var w := Word(data[i], data[i + 1]);
      assert data[i..][2..] == data[i + 2..];
      wraps := if Add32(sum, w) == sum + w then wraps else wraps + 1;
      sum := Add32(sum, w);
      i := i + 2;
    }
    if i < data.Length {
      var w := Word(data[i], 0);
      assert data[i..] == [data[i]];
      wraps := if Add32(sum, w) == sum + w then wraps else wraps + 1;
      sum := Add32(sum, w);
    } else {
      assert data[i..] == [];
    }
    WrapUnique(WordSum(data[..]), wraps, sum);
  }

  /** The folding loop: at most two rounds for a 32-bit sum. */
  method FoldCarries(total: nat) returns (sum: nat, ghost folds: nat)
    requires total < UINT32
    ensures sum == Residue(total) && folds <= 2
  {
    sum, folds := total, 0;
    while sum / 65536 != 0
      invariant Residue(sum) == Residue(total)
      invariant folds <= 2
      invariant if folds == 0 then sum < UINT32 else if folds == 1 then sum <= 0x1_FFFE else sum < 65536
      decreases sum
    {
      FoldKeepsResidue(sum);
      sum := sum % 65536 + sum / 65536;
      folds := folds + 1;
    }
  }

  /** Up to 131074 bytes: the complement of the end-around-carry sum, after at most two folds. */
  method IcmpChecksum(data: array<byte>) returns (checksum: nat, ghost folds: nat)
    ensures checksum == InternetChecksum(data[..])
    ensures data.Length <= 131074 ==> checksum == 65535 - OnesSum(data[..])
    ensures folds <= 2
  {
    var sum := SumWords(data);
    sum, folds := FoldCarries(sum);
    checksum := 65535 - sum;
    OnesSumIsResidue(data[..]);
    if data.Length <= 131074 {
      NoWrap(data[..]);
    }
  }

  /** Storing v into the zero field at the even offset k adds v to the sum. */
  lemma {:induction false} WordSumStore(data: seq<byte>, k: nat, v: nat)
    requires k % 2 == 0 && k + 1 < |data| && data[k] == 0 && data[k + 1] == 0 && v < 65536
    ensures WordSum(data[k := v / 256][k + 1 := v % 256]) == WordSum(data) + v
  {
    var stored := data[k := v / 256][k + 1 := v % 256];
    if k == 0 {
      assert stored[2..] == data[2..];
    } else {
      WordSumStore(data[2..], k - 2, v);
      assert stored[2..] == data[2..][k - 2 := v / 256][k - 1 := v % 256];
    }
  }

  lemma {:induction false} ComplementCancels(n: nat)
    ensures Residue(n + 65535 - Residue(n)) == 65535
  {
    if n >= 65536 {
      ComplementCancels(n - 65535);
    }
  }

  /** The field at k holds the bytes of v. */
  function Store(data: seq<byte>, k: nat, v: nat): (stored: seq<byte>)
    requires k + 1 < |data| && v < 65536
    ensures |stored| == |data|
  {
    data[k := v / 256][k + 1 := v % 256]
  }

  /** A packet carrying its own checksum in a formerly zero field at an even offset checks to zero. */
  lemma {:induction false} ChecksumVerifies(data: seq<byte>, k: nat)
    requires |data| <= 131074
    requires k % 2 == 0 && k + 1 < |data| && data[k] == 0 && data[k + 1] == 0
    ensures InternetChecksum(Store(data, k, InternetChecksum(data))) == 0
  {
    var c, n := InternetChecksum(data), WordSum(data);
    var stored := Store(data, k, c);
    NoWrap(data);
    NoWrap(stored);
    StoredSum(data, k, c, stored);
    ComplementCancels(n);
  }

  lemma {:induction false} StoredSum(data: seq<byte>, k: nat, v: nat, stored: seq<byte>)
    requires k % 2 == 0 && k + 1 < |data| && data[k] == 0 && data[k + 1] == 0 && v < 65536
    requires stored == Store(data, k, v)
    ensures WordSum(stored) == WordSum(data) + v
  {
    WordSumStore(data, k, v);
  }

  /** The letters from A on behind the header. */
  method FillPayload(pkt: array<byte>)
    requires pkt.Length == 16
    modifies pkt
    ensures pkt[..8] == old(pkt[..8]) && forall j :: 8 <= j < 16 ==> pkt[j] == 65 + (j - 8)
  {
    for j := 8 to 16
      invariant pkt[..8] == old(pkt[..8]) && forall i :: 8 <= i < j ==> pkt[i] == 65 + (i - 8)
    {
      pkt[j] := 65 + (j - 8);
    }
  }

  /** The checksum is stored in its field. */
  method Seal(pkt: array<byte>)
    requires pkt.Length == 16 && pkt[2] == pkt[3] == 0
    modifies pkt
    ensures pkt[..2] == old(pkt[..2]) && pkt[4..] == old(pkt[4..]) && InternetChecksum(pkt[..]) == 0
  {
    var cks, folds := IcmpChecksum(pkt);
    var hi: byte, lo: byte := cks / 256, cks % 256;
    ghost var before: seq<byte> := pkt[..];
    pkt[2], pkt[3] := hi, lo;
    assert pkt[..] == Store(before, 2, cks);
    ChecksumVerifies(before, 2);
  }

  /** The echo request: ICMPv4 packets check to zero, ICMPv6 ones leave the field to the kernel. */
  method BuildEcho(isV6: bool, id: nat, sequence: nat) returns (pkt: array<byte>)
    requires id < 65536 && sequence < 65536
    ensures fresh(pkt) && pkt.Length == 16
    ensures pkt[0] == (if isV6 then 128 else 8) && pkt[1] == 0
    ensures Word(pkt[4], pkt[5]) == id && Word(pkt[6], pkt[7]) == sequence
    ensures forall j :: 8 <= j < 16 ==> pkt[j] == 65 + (j - 8)
    ensures if isV6 then pkt[2] == pkt[3] == 0 else InternetChecksum(pkt[..]) == 0
  {
    pkt := new byte[16](_ => 0);
    pkt[0] := if isV6 then 128 else 8;
    pkt[4], pkt[5] := id / 256, id % 256;
    pkt[6], pkt[7] := sequence / 256, sequence % 256;
    ghost var header := pkt[..8];
    FillPayload(pkt);
    assert forall k :: 0 <= k < 8 ==> pkt[k] == pkt[..8][k] == header[k];
    if !isV6 {
      ghost var front, back := pkt[..2], pkt[4..];
      Seal(pkt);
      assert forall k :: 0 <= k < 2 ==> pkt[k] == pkt[..2][k] == front[k];
      assert forall k :: 4 <= k < 16 ==> pkt[k] == pkt[4..][k - 4] == back[k - 4];
    }
  }
}
