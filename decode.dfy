/**
  How generateAscii turns one octet into four moves: the octet is written
  as an 8-character bit string (`bin` without its prefix, then `zfill(8)`),
  and the string is read two characters at a time from its right end, so
  the least significant bit pair comes first.
 */
module Decode {
  import opened Grid

  /** An octet of the fingerprint, already parsed from its hex digits. */
  type Octet = b: nat | b < 256

  function BitChar(bit: nat): char
    requires bit < 2
  {
    if bit == 0 then '0' else '1'
  }

  /** `bin(n)[2:]`: the binary digits of n, most significant first, without leading zeros. */
  function BinDigits(n: nat): (s: string)
    ensures |s| >= 1
    ensures forall i :: 0 <= i < |s| ==> s[i] == '0' || s[i] == '1'
    ensures s[0] == '0' <==> n == 0
    decreases n
  {
    if n < 2 then [BitChar(n)] else BinDigits(n / 2) + [BitChar(n % 2)]
  }

  /** `s.zfill(width)` for a string without a sign: pad with '0' on the left up to `width`. */
  function ZFill(s: string, width: nat): (r: string)
    ensures |r| == if |s| < width then width else |s|
    ensures r[|r| - |s|..] == s
    ensures forall i :: 0 <= i < |r| - |s| ==> r[i] == '0'
  {
    if |s| < width then seq(width - |s|, _ => '0') + s else s
  }

  /** The bit string generateAscii builds for an octet value. */
  function Bits(b: nat): string {
    ZFill(BinDigits(b), 8)
  }

  /** `n >> s`. */
  function Shr(n: nat, s: nat): nat {
    if s == 0 then n else Shr(n / 2, s - 1)
  }

  function Pow2(s: nat): nat {
    if s == 0 then 1 else 2 * Pow2(s - 1)
  }

  /** `(n >> i) & 1`. */
  function BitAt(n: nat, i: nat): nat {
    Shr(n, i) % 2
  }

  function DirectionOf(v: nat): Direction
    requires v < 4
  {
    if v == 0 then UpLeft else if v == 1 then UpRight else if v == 2 then DownLeft else DownRight
  }

  /** The two characters that select a direction in generateAscii. */
  function PairText(d: Direction): string {
    match d
    case UpLeft => "00"
    case UpRight => "01"
    case DownLeft => "10"
    case DownRight => "11"
  }

  /**
    The four moves of an octet, by arithmetic: step k uses `(b >> 2k) & 3`,
    so the least significant pair comes first.
   */
  function OctetMoves(b: Octet): (ds: seq<Direction>)
    ensures |ds| == 4
  {
    seq(4, k requires 0 <= k => DirectionOf(Shr(b, 2 * k) % 4))
  }

  /** All moves of a fingerprint, octet by octet in order. */
  function Moves(os: seq<Octet>): (ds: seq<Direction>)
    ensures |ds| == 4 * |os|
  {
    if os == [] then [] else Moves(os[..|os| - 1]) + OctetMoves(os[|os| - 1])
  }

  lemma MovesSnoc(os: seq<Octet>, n: nat)
    requires n < |os|
    ensures Moves(os[..n + 1]) == Moves(os[..n]) + OctetMoves(os[n])
  {
    assert os[..n + 1][..n] == os[..n];
  }

  lemma {:induction false} ShrZero(s: nat)
    ensures Shr(0, s) == 0
  {
    if s > 0 {
      ShrZero(s - 1);
    }
  }

  lemma {:induction false} ShrSucc(n: nat, s: nat)
    ensures Shr(n, s + 1) == Shr(n, s) / 2
    decreases s
  {
    if s > 0 {
      ShrSucc(n / 2, s - 1);
    }
  }

  lemma {:induction false} ShrSmall(n: nat, s: nat)
    requires n < Pow2(s)
    ensures Shr(n, s) == 0
  {
    if s > 0 {
      ShrSmall(n / 2, s - 1);
    }
  }

  /** `bin` writes bit i of n at distance i from the right end. */
  lemma {:induction false} BinDigitsAt(n: nat, i: nat)
    requires i < |BinDigits(n)|
    ensures BinDigits(n)[|BinDigits(n)| - 1 - i] == BitChar(BitAt(n, i))
    decreases n
  {
    if n >= 2 && i > 0 {
      BinDigitsAt(n / 2, i - 1);
    }
  }

  /** The bits above the ones `bin` writes are zero. */
  lemma {:induction false} BitAtHigh(n: nat, i: nat)
    requires i >= |BinDigits(n)|
    ensures BitAt(n, i) == 0
    decreases n
  {
    if n < 2 {
      ShrZero(i - 1);
    } else {
      BitAtHigh(n / 2, i - 1);
    }
  }

  lemma {:induction false} BinDigitsLength(n: nat, k: nat)
    requires k >= 1 && Shr(n, k) == 0
    ensures |BinDigits(n)| <= k
    decreases n
  {
    if n >= 2 && k > 1 {
      BinDigitsLength(n / 2, k - 1);
    }
  }

  /** Every character of the bit string of an octet is its bit at the mirrored position. */
  lemma BitsAt(b: nat, i: nat)
    requires b < 256 && i < 8
    ensures |Bits(b)| == 8
    ensures Bits(b)[7 - i] == BitChar(BitAt(b, i))
  {
    assert Pow2(8) == 256;
    ShrSmall(b, 8);
    BinDigitsLength(b, 8);
    var s := BinDigits(b);
    if i < |s| {
      BinDigitsAt(b, i);
      assert Bits(b)[7 - i] == Bits(b)[8 - |s|..][|s| - 1 - i];
    } else {
      BitAtHigh(b, i);
    }
  }

  lemma BitsLength(b: Octet)
    ensures |Bits(b)| == 8
  {
    BitsAt(b, 0);
  }

  /**
    The pair generateAscii reads at steps i = 8, 6, 4, 2 of its inner loop
    is always one of the four recognised pairs, so its ValueError branch is
    unreachable, and it is the pair of step k = (8 - i) / 2 of `OctetMoves`.
   */
  lemma PairDecodes(b: Octet, k: nat)
    requires k < 4
    ensures |Bits(b)| == 8
    ensures Bits(b)[6 - 2 * k..8 - 2 * k] == PairText(OctetMoves(b)[k])
  {
    var hi, lo := BitAt(b, 2 * k + 1), BitAt(b, 2 * k);
    PairBits(b, k);
    OctetMoveBits(b, k);
    PairTextOf(hi, lo);
  }

  /** The pair read at step k is bit 2k + 1 followed by bit 2k. */
  lemma PairBits(b: Octet, k: nat)
    requires k < 4
    ensures |Bits(b)| == 8
    ensures Bits(b)[6 - 2 * k..8 - 2 * k] == [BitChar(BitAt(b, 2 * k + 1)), BitChar(BitAt(b, 2 * k))]
  {
    var bits := Bits(b);
    BitsAt(b, 2 * k);
    BitsAt(b, 2 * k + 1);
    SliceOfTwo(bits, 6 - 2 * k);
  }

  /** Step k of `OctetMoves` is numbered by bits 2k + 1 and 2k. */
  lemma OctetMoveBits(b: Octet, k: nat)
    requires k < 4
    ensures OctetMoves(b)[k] == DirectionOf(2 * BitAt(b, 2 * k + 1) + BitAt(b, 2 * k))
  {
    ShrSucc(b, 2 * k);
    Mod4Bits(Shr(b, 2 * k));
  }

  /**
    What the two bits of a pair select: the low bit 2k moves right when set and
    left when clear, the high bit 2k + 1 moves down when set and up when clear.
   */
  lemma OctetMoveDeltas(b: Octet, k: nat)
    requires k < 4
    ensures ColDelta(OctetMoves(b)[k]) == if BitAt(b, 2 * k) == 1 then 1 else -1
    ensures RowDelta(OctetMoves(b)[k]) == if BitAt(b, 2 * k + 1) == 1 then 1 else -1
  {
    OctetMoveBits(b, k);
  }

  lemma Mod4Bits(x: nat)
    ensures x % 4 == 2 * ((x / 2) % 2) + x % 2
  {
    var q, r := x / 4, x % 4;
    assert x == 4 * q + r;
    assert x / 2 == 2 * q + r / 2;
  }

  lemma SliceOfTwo(s: string, j: nat)
    requires j + 2 <= |s|
    ensures s[j..j + 2] == [s[j], s[j + 1]]
  {
  }

  /** The pair text of the direction numbered 2 * hi + lo is the two bits hi, lo. */
  lemma PairTextOf(hi: nat, lo: nat)
    requires hi < 2 && lo < 2
    ensures PairText(DirectionOf(2 * hi + lo)) == [BitChar(hi), BitChar(lo)]
  {
  }
}
