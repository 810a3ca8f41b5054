/**
 64-bit words as their bits, most significant bit first.  The radix tree and the network masks read
 words bit by bit, so every operation they use is given by what it does to each bit.
 */
module Words {

  type Word = w: seq<bool> | |w| == 64 witness Repeat(false)
  type Byte = bv8

  function Repeat(b: bool): (w: seq<bool>)
    ensures |w| == 64 && forall i :: 0 <= i < 64 ==> w[i] == b
  {
    seq(64, _ => b)
  }

  const ZERO: Word := Repeat(false)
  const ONES: Word := Repeat(true)

  function And(a: Word, b: Word): Word {
    seq(64, i requires 0 <= i < 64 => a[i] && b[i])
  }

  function Not(a: Word): Word {
    seq(64, i requires 0 <= i < 64 => !a[i])
  }

  /** Logical right shift: zeros come in from the left. */
  function ShiftRight(a: Word, n: nat): Word {
    seq(64, i requires 0 <= i < 64 => i >= n && a[i - n])
  }

  /** How the code tests a word used as a condition. */
  predicate NonZero(a: Word) {
    true in a
  }

  /** The mask of bit `j`; past the last bit it is zero. */
  function BitAt(j: nat): Word {
    seq(64, i => i == j)
  }

  /** `be64toh` on a little-endian host: the eight bytes in reverse order. */
  function Ntohll(w: Word): Word {
    seq(64, i requires 0 <= i < 64 => w[8 * (7 - i / 8) + i % 8])
  }

  lemma NtohllInjective(v: Word, w: Word)
    ensures Ntohll(v) == Ntohll(w) <==> v == w
  {
    if Ntohll(v) == Ntohll(w) {
      forall i | 0 <= i < 64 ensures v[i] == w[i] {
        var j := 8 * (7 - i / 8) + i % 8;
        assert Ntohll(v)[j] == v[i] && Ntohll(w)[j] == w[i];
      }
    }
  }

  lemma TestBit(w: Word, j: nat)
    requires j < 64
    ensures NonZero(And(w, BitAt(j))) <==> w[j]
    ensures NonZero(And(BitAt(j), w)) <==> w[j]
  {
    assert And(w, BitAt(j))[j] == w[j] == And(BitAt(j), w)[j];
  }

  lemma NextBit(j: nat)
    requires j < 64
    ensures ShiftRight(BitAt(j), 1) == BitAt(j + 1)
    ensures BitAt(j + 1) == ZERO <==> j == 63
  {
    if j < 63 {
      assert BitAt(j + 1)[j + 1] && !ZERO[j + 1];
    }
  }

  /** The mask of the first `n` bits, as the code builds it. */
  function HighMask(n: nat): Word {
    Not(ShiftRight(ONES, n))
  }

  lemma MaskBits(n: nat, j: nat)
    requires j < 64
    ensures HighMask(n)[j] <==> j < n
  {
  }

  /** Equal under a mask means equal bit by bit on the masked part. */
  lemma MaskedEqual(x: Word, y: Word, n: nat)
    requires n <= 64
    ensures And(x, HighMask(n)) == And(y, HighMask(n)) <==> x[..n] == y[..n]
  {
    if And(x, HighMask(n)) == And(y, HighMask(n)) {
      forall j | 0 <= j < n ensures x[j] == y[j] {
        assert And(x, HighMask(n))[j] == And(y, HighMask(n))[j];
      }
    } else {
      var j :| 0 <= j < 64 && And(x, HighMask(n))[j] != And(y, HighMask(n))[j];
      assert x[..n][j] != y[..n][j];
    }
  }

  // ----- bytes

  /** Bit `i` of a byte, most significant first. */
  predicate ByteBit(b: Byte, i: nat)
    requires i < 8
  {
    b & [128, 64, 32, 16, 8, 4, 2, 1][i] != 0
  }

  /** Eight bytes of memory loaded as one word on a little-endian host. */
  function Load(mem: seq<Byte>, at: nat): Word
    requires at + 8 <= |mem|
  {
    seq(64, i requires 0 <= i < 64 => ByteBit(mem[at + 7 - i / 8], i % 8))
  }

  /** The bits of a byte string in network order. */
  function Bits(mem: seq<Byte>): (bits: seq<bool>)
    ensures |bits| == 8 * |mem|
  {
    seq(8 * |mem|, i requires 0 <= i < 8 * |mem| => ByteBit(mem[i / 8], i % 8))
  }

  /** Reading memory through `Ntohll` gives its bits in network order. */
  lemma LoadedBits(mem: seq<Byte>, at: nat)
    requires at % 8 == 0 && at + 8 <= |mem|
    ensures Ntohll(Load(mem, at)) == Bits(mem)[8 * at..8 * at + 64]
  {
    hide ByteBit, Load, Ntohll, Bits;
    var x, y := Ntohll(Load(mem, at)), Bits(mem)[8 * at..8 * at + 64];
    forall i | 0 <= i < 64 ensures x[i] == y[i] {
      LoadedBit(mem, at, i / 8, i % 8);
      assert i == 8 * (i / 8) + i % 8;
    }
  }

  lemma LoadedBit(mem: seq<Byte>, at: nat, q: nat, r: nat)
    requires at + 8 <= |mem| && q < 8 && r < 8
    ensures Ntohll(Load(mem, at))[8 * q + r] == Bits(mem)[8 * at + (8 * q + r)]
  {
    hide ByteBit;
    assert (8 * q + r) / 8 == q && (8 * q + r) % 8 == r;
    var j := 8 * (7 - q) + r;
    assert j / 8 == 7 - q && j % 8 == r;
    assert Ntohll(Load(mem, at))[8 * q + r] == Load(mem, at)[j] == ByteBit(mem[at + q], r);
    var k := 8 * at + (8 * q + r);
    assert k / 8 == at + q && k % 8 == r;
  }
}
