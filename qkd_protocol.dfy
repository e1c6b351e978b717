/** The classical side of the simulated BB84 exchange in `QKDProtocol`:
    reading the simulator's bit string, sifting on basis agreement,
    accumulating rounds into a pool and packing the pool into key bytes.
    The quantum simulator itself is an oracle: each round is given as the
    random choices of the two parties plus the bit string the simulator
    reported. */
module QkdProtocol {
  import opened Basics

  /** A basis choice: 0 is the Z (rectilinear) basis, 1 the X (diagonal) one. */
  type Basis = Bit

  // ---------------------------------------------------------------------
  // Reading the simulator's answer
  // ---------------------------------------------------------------------

  /** The key of `get_counts()` after one shot: one '0'/'1' per classical bit. */
  predicate IsBitString(s: string) {
    forall i :: 0 <= i < |s| ==> s[i] == '0' || s[i] == '1'
  }

  /** Python's `int(b)` on one character of a bit string. */
  function Digit(c: char): (b: Bit)
    requires c == '0' || c == '1'
    ensures b == 1 <==> c == '1'
  {
    if c == '1' then 1 else 0
  }

  function DigitChar(b: Bit): (c: char)
    ensures (c == '0' || c == '1') && Digit(c) == b
  {
    if b == 1 then '1' else '0'
  }

  /** `[int(b) for b in bitstr[::-1]]`: the simulator prints the classical
      bit of the last qubit first, so the read-out is reversed. */
  function Readout(bitstr: string): (measured: seq<Bit>)
    requires IsBitString(bitstr)
    ensures |measured| == |bitstr|
  {
    if bitstr == [] then []
    else [Digit(bitstr[|bitstr| - 1])] + Readout(bitstr[..|bitstr| - 1])
  }

  /** Entry i of the read-out is character `len(bitstr) - 1 - i` of the bit string. */
  lemma {:induction false} ReadoutAt(bitstr: string, i: nat)
    requires IsBitString(bitstr) && i < |bitstr|
    ensures Readout(bitstr)[i] == Digit(bitstr[|bitstr| - 1 - i])
  {
    if i > 0 {
      ReadoutAt(bitstr[..|bitstr| - 1], i - 1);
    }
  }

  /** The bit string the simulator reports for the qubit outcomes `measured`
      (qubit 0 printed last). */
  function Render(measured: seq<Bit>): (s: string)
    ensures |s| == |measured| && IsBitString(s)
  {
    if measured == [] then [] else Render(measured[1..]) + [DigitChar(measured[0])]
  }

  lemma {:induction false} ReadoutRender(measured: seq<Bit>)
    ensures Readout(Render(measured)) == measured
  {
    if measured != [] {
      var s := Render(measured);
      assert s[..|s| - 1] == Render(measured[1..]);
      ReadoutRender(measured[1..]);
    }
  }

  lemma {:induction false} RenderReadout(s: string)
    requires IsBitString(s)
    ensures Render(Readout(s)) == s
  {
    if s != [] {
      var n := |s| - 1;
      assert Readout(s)[1..] == Readout(s[..n]);
      RenderReadout(s[..n]);
      assert s == s[..n] + [s[n]];
    }
  }

  // ---------------------------------------------------------------------
  // Sifting
  // ---------------------------------------------------------------------

  /** `measured[alice_bases == bob_bases]`: the measured bits at the positions
      where both parties chose the same basis. */
  function Sift(measured: seq<Bit>, aliceBases: seq<Basis>, bobBases: seq<Basis>): (sifted: seq<Bit>)
    requires |measured| == |aliceBases| == |bobBases|
    ensures |sifted| <= |measured|
  {
    if measured == [] then []
    else
      var n := |measured| - 1;
      Sift(measured[..n], aliceBases[..n], bobBases[..n])
        + (if aliceBases[n] == bobBases[n] then [measured[n]] else [])
  }

  /** The true positions of the mask `alice_bases == bob_bases`. */
  function MatchSet(aliceBases: seq<Basis>, bobBases: seq<Basis>): set<nat>
    requires |aliceBases| == |bobBases|
  {
    set i: nat | i < |aliceBases| && aliceBases[i] == bobBases[i]
  }

  /** The round keeps one bit per position where the bases agree. */
  lemma {:induction false} SiftCount(measured: seq<Bit>, aliceBases: seq<Basis>, bobBases: seq<Basis>)
    requires |measured| == |aliceBases| == |bobBases|
    ensures |Sift(measured, aliceBases, bobBases)| == |MatchSet(aliceBases, bobBases)|
  {
    if measured != [] {
      var n := |measured| - 1;
      SiftCount(measured[..n], aliceBases[..n], bobBases[..n]);
      var before := MatchSet(aliceBases[..n], bobBases[..n]);
      assert n !in before;
      if aliceBases[n] == bobBases[n] {
        assert MatchSet(aliceBases, bobBases) == before + {n};
      } else {
        assert MatchSet(aliceBases, bobBases) == before;
      }
    }
  }

  /** The positions where the bases agree, in increasing order. */
  function MatchPositions(aliceBases: seq<Basis>, bobBases: seq<Basis>): (ps: seq<nat>)
    requires |aliceBases| == |bobBases|
    ensures forall k :: 0 <= k < |ps| ==> ps[k] < |aliceBases| && aliceBases[ps[k]] == bobBases[ps[k]]
    ensures forall j, k :: 0 <= j < k < |ps| ==> ps[j] < ps[k]
    ensures forall i :: 0 <= i < |aliceBases| && aliceBases[i] == bobBases[i] ==> i in ps
  {
    if aliceBases == [] then []
    else
      var n := |aliceBases| - 1;
      MatchPositions(aliceBases[..n], bobBases[..n]) + (if aliceBases[n] == bobBases[n] then [n] else [])
  }

  /** Sifting selects exactly the measured bits at the agreeing positions, in
      increasing index order: nothing is reordered, dropped or duplicated. */
  lemma {:induction false} SiftSelectsMatches(measured: seq<Bit>, aliceBases: seq<Basis>, bobBases: seq<Basis>)
    requires |measured| == |aliceBases| == |bobBases|
    ensures |Sift(measured, aliceBases, bobBases)| == |MatchPositions(aliceBases, bobBases)|
    ensures forall k :: 0 <= k < |MatchPositions(aliceBases, bobBases)| ==>
              Sift(measured, aliceBases, bobBases)[k] == measured[MatchPositions(aliceBases, bobBases)[k]]
  {
    if measured != [] {
      var n := |measured| - 1;
      SiftSelectsMatches(measured[..n], aliceBases[..n], bobBases[..n]);
      var s, s' := Sift(measured, aliceBases, bobBases), Sift(measured[..n], aliceBases[..n], bobBases[..n]);
      var ps, ps' := MatchPositions(aliceBases, bobBases), MatchPositions(aliceBases[..n], bobBases[..n]);
      forall k | 0 <= k < |ps| ensures s[k] == measured[ps[k]] {
        if k < |ps'| {
          assert s[k] == s'[k] && ps[k] == ps'[k];
          assert measured[..n][ps'[k]] == measured[ps'[k]];
        } else {
          assert s[k] == measured[n] && ps[k] == n;
        }
      }
    }
  }

  /** Two read-outs that agree wherever the bases agree sift to the same bits. */
  lemma {:induction false} SiftAgrees(m1: seq<Bit>, m2: seq<Bit>, aliceBases: seq<Basis>, bobBases: seq<Basis>)
    requires |m1| == |m2| == |aliceBases| == |bobBases|
    requires forall i :: 0 <= i < |m1| && aliceBases[i] == bobBases[i] ==> m1[i] == m2[i]
    ensures Sift(m1, aliceBases, bobBases) == Sift(m2, aliceBases, bobBases)
  {
    if m1 != [] {
      var n := |m1| - 1;
      SiftAgrees(m1[..n], m2[..n], aliceBases[..n], bobBases[..n]);
    }
  }

  // ---------------------------------------------------------------------
  // One round
  // ---------------------------------------------------------------------

  /** The random choices of one round (`alice_bits`, `alice_bases`,
      `bob_bases`) and the bit string the simulator reported for it. */
  datatype RoundInput = RoundInput(aliceBits: seq<Bit>, aliceBases: seq<Basis>, bobBases: seq<Basis>, bitstr: string)

  /** What the random draws and the simulator guarantee: all four have one
      entry per qubit and the read-out is a bit string. */
  predicate ValidRound(r: RoundInput) {
    |r.aliceBits| == |r.aliceBases| == |r.bobBases| == |r.bitstr| && IsBitString(r.bitstr)
  }

  /** `run_bb84_round` after the simulator has answered: reverse the read-out,
      then keep the bits where the bases agree. */
  function RunRound(r: RoundInput): (sifted: seq<Bit>)
    requires ValidRound(r)
    ensures |sifted| == |MatchSet(r.aliceBases, r.bobBases)|
    ensures |sifted| <= |r.aliceBases|
  {
    var measured := Readout(r.bitstr);
    SiftCount(measured, r.aliceBases, r.bobBases);
    Sift(measured, r.aliceBases, r.bobBases)
  }

  // ---------------------------------------------------------------------
  // The circuit, on the four BB84 states
  // ---------------------------------------------------------------------

  /** The single-qubit states the circuit can reach: |0>, |1>, |+>, |->
      (global phases dropped). */
  datatype Qubit = Zero | One | Plus | Minus

  function ApplyX(q: Qubit): Qubit {
    match q
    case Zero => One
    case One => Zero
    case Plus => Plus
    case Minus => Minus
  }

  function ApplyH(q: Qubit): Qubit {
    match q
    case Zero => Plus
    case Plus => Zero
    case One => Minus
    case Minus => One
  }

  /** `prepare_qubits` for one qubit: X when the bit is 1, then H when the basis is 1. */
  function Prepare(bit: Bit, basis: Basis): Qubit {
    var q := if bit == 1 then ApplyX(Zero) else Zero;
    if basis == 1 then ApplyH(q) else q
  }

  /** `measure_with_bases` before the measurement: H when Bob's basis is 1. */
  function Rotate(q: Qubit, basis: Basis): Qubit {
    if basis == 1 then ApplyH(q) else q
  }

  /** A Z-basis measurement; a superposed state collapses to the simulator's `coin`. */
  function Measure(q: Qubit, coin: Bit): Bit {
    match q
    case Zero => 0
    case One => 1
    case _ => coin
  }

  /** The outcome of one qubit: Alice's bit when the bases agree, the
      simulator's coin when they do not. */
  function QubitOutcome(bit: Bit, aliceBasis: Basis, bobBasis: Basis, coin: Bit): (b: Bit)
    ensures aliceBasis == bobBasis ==> b == bit
    ensures aliceBasis != bobBasis ==> b == coin
  {
    Measure(Rotate(Prepare(bit, aliceBasis), bobBasis), coin)
  }

  /** The bit string one shot of the circuit reports, given the coin each
      superposed qubit collapses to. */
  function CircuitBitstring(aliceBits: seq<Bit>, aliceBases: seq<Basis>, bobBases: seq<Basis>, coins: seq<Bit>): (s: string)
    requires |aliceBits| == |aliceBases| == |bobBases| == |coins|
    ensures |s| == |aliceBits| && IsBitString(s)
  {
    Render(seq(|aliceBits|, i requires 0 <= i < |aliceBits| =>
      QubitOutcome(aliceBits[i], aliceBases[i], bobBases[i], coins[i])))
  }

  /** An ideal simulator: every qubit whose bases agree reads out as Alice's bit. */
  predicate IdealOutcome(r: RoundInput) {
    ValidRound(r) &&
    forall i :: 0 <= i < |r.bitstr| && r.aliceBases[i] == r.bobBases[i] ==>
      Readout(r.bitstr)[i] == r.aliceBits[i]
  }

  /** The circuit answers ideally, whatever the coins of the other qubits. */
  lemma CircuitIsIdeal(aliceBits: seq<Bit>, aliceBases: seq<Basis>, bobBases: seq<Basis>, coins: seq<Bit>)
    requires |aliceBits| == |aliceBases| == |bobBases| == |coins|
    ensures IdealOutcome(RoundInput(aliceBits, aliceBases, bobBases, CircuitBitstring(aliceBits, aliceBases, bobBases, coins)))
  {
    var outcomes := seq(|aliceBits|, i requires 0 <= i < |aliceBits| =>
      QubitOutcome(aliceBits[i], aliceBases[i], bobBases[i], coins[i]));
    ReadoutRender(outcomes);
  }

  /** Under an ideal simulator the round keeps Alice's bits at the agreeing positions. */
  lemma IdealRoundKeepsAliceBits(r: RoundInput)
    requires IdealOutcome(r)
    ensures RunRound(r) == Sift(r.aliceBits, r.aliceBases, r.bobBases)
  {
    SiftAgrees(Readout(r.bitstr), r.aliceBits, r.aliceBases, r.bobBases);
  }

  // ---------------------------------------------------------------------
  // Accumulating rounds
  // ---------------------------------------------------------------------

  /** What the round loop can consult: at most `max_rounds` rounds, none for a
      negative budget (`range` is then empty). */
  function Budget(maxRounds: int): (m: nat)
    ensures maxRounds <= 0 ==> m == 0
    ensures maxRounds >= 0 ==> m == maxRounds
  {
    if maxRounds < 0 then 0 else maxRounds
  }

  /** The sifted output of each round, in round order. */
  function RoundOutputs(rounds: seq<RoundInput>): (outs: seq<seq<Bit>>)
    requires forall k :: 0 <= k < |rounds| ==> ValidRound(rounds[k])
    ensures |outs| == |rounds|
    ensures forall k :: 0 <= k < |rounds| ==> outs[k] == RunRound(rounds[k])
  {
    seq(|rounds|, k requires 0 <= k < |rounds| => RunRound(rounds[k]))
  }

  /** All round outputs, one after the other, in round order. */
  function Concat(outs: seq<seq<Bit>>): seq<Bit> {
    if outs == [] then [] else Concat(outs[..|outs| - 1]) + outs[|outs| - 1]
  }

  /** A round extends the pool by its own output. */
  lemma ConcatStep(outs: seq<seq<Bit>>, k: nat)
    requires k < |outs|
    ensures Concat(outs[..k + 1]) == Concat(outs[..k]) + outs[k]
  {
    assert outs[..k + 1][..k] == outs[..k];
  }

  /** The pool of the first k rounds is a prefix of the pool of all rounds. */
  lemma {:induction false} ConcatPrefix(outs: seq<seq<Bit>>, k: nat)
    requires k <= |outs|
    ensures Concat(outs[..k]) <= Concat(outs)
  {
    if k < |outs| {
      var n := |outs| - 1;
      ConcatPrefix(outs[..n], k);
      assert outs[..n][..k] == outs[..k];
    } else {
      assert outs[..k] == outs;
    }
  }

  /** No round yields more than `n` bits, so `k` rounds yield at most `n * k`. */
  lemma {:induction false} ConcatBound(outs: seq<seq<Bit>>, n: nat)
    requires forall k :: 0 <= k < |outs| ==> |outs[k]| <= n
    ensures |Concat(outs)| <= n * |outs|
  {
    if outs != [] {
      var m := |outs| - 1;
      ConcatBound(outs[..m], n);
      assert n * |outs| == n * m + n;
    }
  }

  /** The loop stops after `k` rounds: every earlier round left the pool short
      of the target, and either the k-th round reached it or the budget ran out. */
  predicate IsStop(outs: seq<seq<Bit>>, target: int, k: nat) {
    k <= |outs|
    && (forall j :: 1 <= j < k ==> |Concat(outs[..j])| < target)
    && (k == |outs| || (1 <= k && |Concat(outs[..k])| >= target))
  }

  lemma StopIsUnique(outs: seq<seq<Bit>>, target: int, k1: nat, k2: nat)
    requires IsStop(outs, target, k1) && IsStop(outs, target, k2)
    ensures k1 == k2
  {
  }

  function StopFrom(outs: seq<seq<Bit>>, target: int, j: nat): nat
    requires j <= |outs|
    decreases |outs| - j
  {
    if j == |outs| then j
    else if |Concat(outs[..j + 1])| >= target then j + 1
    else StopFrom(outs, target, j + 1)
  }

  lemma {:induction false} StopFromIsStop(outs: seq<seq<Bit>>, target: int, j: nat)
    requires j <= |outs|
    requires forall i :: 1 <= i <= j ==> |Concat(outs[..i])| < target
    ensures IsStop(outs, target, StopFrom(outs, target, j))
    decreases |outs| - j
  {
    if j < |outs| && |Concat(outs[..j + 1])| < target {
      StopFromIsStop(outs, target, j + 1);
    }
  }

  /** The number of rounds the loop of `generate_shared_key` runs. */
  function RoundsRun(outs: seq<seq<Bit>>, target: int): (k: nat)
    ensures IsStop(outs, target, k)
  {
    StopFromIsStop(outs, target, 0);
    StopFrom(outs, target, 0)
  }

  /** The pool when the loop stops. */
  function Pool(outs: seq<seq<Bit>>, target: int): seq<Bit> {
    Concat(outs[..RoundsRun(outs, target)])
  }

  lemma PoolOfStop(outs: seq<seq<Bit>>, target: int, k: nat)
    requires IsStop(outs, target, k)
    ensures Pool(outs, target) == Concat(outs[..k])
  {
    StopIsUnique(outs, target, k, RoundsRun(outs, target));
  }

  // ---------------------------------------------------------------------
  // Packing bits into bytes
  // ---------------------------------------------------------------------

  /** The value `val` reaches in `for b in chunk: val = (val << 1) | b`, from 0. */
  function BitsValue(chunk: seq<Bit>): (v: nat)
    ensures v < Pow2(|chunk|)
  {
    if chunk == [] then 0 else 2 * BitsValue(chunk[..|chunk| - 1]) + chunk[|chunk| - 1]
  }

  /** The bytes the packing loop appends for `bits`: one per group of eight,
      a shorter last group packed on its own. */
  function PackBits(bits: seq<Bit>): (bytes: seq<Byte>)
    ensures |bytes| == (|bits| + 7) / 8
    decreases |bits|
  {
    if bits == [] then []
    else
      var w := if |bits| < 8 then |bits| else 8;
      Pow2AtMostByte(w);
      [BitsValue(bits[..w]) as Byte] + PackBits(bits[w..])
  }

  /** Byte k packs bits 8k up to 8k + 8 (fewer for a short last group). */
  lemma {:induction false} PackedByteAt(bits: seq<Bit>, k: nat)
    requires 8 * k < |bits|
    ensures k < |PackBits(bits)|
    ensures PackBits(bits)[k] == BitsValue(bits[8 * k .. if 8 * k + 8 <= |bits| then 8 * k + 8 else |bits|])
  {
    if k > 0 {
      var rest := bits[8..];
      PackedByteAt(rest, k - 1);
      assert PackBits(bits)[k] == PackBits(rest)[k - 1];
      var lo, hi := 8 * k, if 8 * k + 8 <= |bits| then 8 * k + 8 else |bits|;
      assert rest[lo - 8 .. hi - 8] == bits[lo .. hi];
    }
  }

  /** Eight bits read most significant first. */
  lemma BitsValueOfEight(c: seq<Bit>)
    requires |c| == 8
    ensures BitsValue(c) == 128 * c[0] as int + 64 * c[1] as int + 32 * c[2] as int + 16 * c[3] as int
                            + 8 * c[4] as int + 4 * c[5] as int + 2 * c[6] as int + c[7] as int
  {
    var b0: int, b1: int, b2: int, b3: int := c[0], c[1], c[2], c[3];
    var b4: int, b5: int, b6: int := c[4], c[5], c[6];
    assert BitsValue(c[..1]) == b0 by { assert c[..1][..0] == []; }
    assert BitsValue(c[..2]) == 2 * b0 + b1 by { assert c[..2][..1] == c[..1]; }
    assert BitsValue(c[..3]) == 4 * b0 + 2 * b1 + b2 by { assert c[..3][..2] == c[..2]; }
    assert BitsValue(c[..4]) == 8 * b0 + 4 * b1 + 2 * b2 + b3 by { assert c[..4][..3] == c[..3]; }
    assert BitsValue(c[..5]) == 16 * b0 + 8 * b1 + 4 * b2 + 2 * b3 + b4 by { assert c[..5][..4] == c[..4]; }
    assert BitsValue(c[..6]) == 32 * b0 + 16 * b1 + 8 * b2 + 4 * b3 + 2 * b4 + b5
      by { assert c[..6][..5] == c[..5]; }
    assert BitsValue(c[..7]) == 64 * b0 + 32 * b1 + 16 * b2 + 8 * b3 + 4 * b4 + 2 * b5 + b6
      by { assert c[..7][..6] == c[..6]; }
    assert c[..8][..7] == c[..7];
    assert c[..8] == c;
  }

  /** A full group is read most significant bit first:
      byte k is the sum of `bits[8k + j] * 2^(7 - j)`. */
  lemma PackedFullByte(bits: seq<Bit>, k: nat)
    requires 8 * k + 8 <= |bits|
    ensures PackBits(bits)[k] ==
      128 * bits[8 * k] as int + 64 * bits[8 * k + 1] as int + 32 * bits[8 * k + 2] as int
      + 16 * bits[8 * k + 3] as int + 8 * bits[8 * k + 4] as int + 4 * bits[8 * k + 5] as int
      + 2 * bits[8 * k + 6] as int + bits[8 * k + 7] as int
  {
    PackedByteAt(bits, k);
    BitsValueOfEight(bits[8 * k .. 8 * k + 8]);
  }

  lemma PackExample()
    ensures PackBits([1, 0, 1, 1, 0, 0, 0, 1]) == [0xB1]
  {
    PackedFullByte([1, 0, 1, 1, 0, 0, 0, 1], 0);
  }

  /** The low `width` bits of `v`, most significant first. */
  function ToBits(v: nat, width: nat): (bits: seq<Bit>)
    ensures |bits| == width
  {
    if width == 0 then [] else ToBits(v / 2, width - 1) + [v % 2]
  }

  lemma {:induction false} ToBitsOfValue(chunk: seq<Bit>)
    ensures ToBits(BitsValue(chunk), |chunk|) == chunk
  {
    if chunk != [] {
      var n := |chunk| - 1;
      ToBitsOfValue(chunk[..n]);
      assert chunk == chunk[..n] + [chunk[n]];
    }
  }

  lemma {:induction false} ValueOfToBits(v: nat, width: nat)
    requires v < Pow2(width)
    ensures BitsValue(ToBits(v, width)) == v
  {
    if width > 0 {
      ValueOfToBits(v / 2, width - 1);
      var bits := ToBits(v, width);
      assert bits[..width - 1] == ToBits(v / 2, width - 1);
    }
  }

  /** The bits of a key, eight per byte, most significant first. */
  function UnpackBytes(bytes: seq<Byte>): (bits: seq<Bit>)
    ensures |bits| == 8 * |bytes|
  {
    if bytes == [] then [] else ToBits(bytes[0], 8) + UnpackBytes(bytes[1..])
  }

  /** Packing loses nothing when the bit count is a multiple of eight. */
  lemma {:induction false} UnpackPack(bits: seq<Bit>)
    requires |bits| % 8 == 0
    ensures UnpackBytes(PackBits(bits)) == bits
    decreases |bits|
  {
    if bits != [] {
      ToBitsOfValue(bits[..8]);
      UnpackPack(bits[8..]);
      assert bits == bits[..8] + bits[8..];
    }
  }

  /** Every key is the packing of its own bits. */
  lemma {:induction false} PackUnpack(bytes: seq<Byte>)
    ensures PackBits(UnpackBytes(bytes)) == bytes
  {
    if bytes != [] {
      var bits := UnpackBytes(bytes);
      assert bits[..8] == ToBits(bytes[0], 8);
      assert bits[8..] == UnpackBytes(bytes[1..]);
      Pow2AtMostByte(8);
      ValueOfToBits(bytes[0], 8);
      PackUnpack(bytes[1..]);
    }
  }

  // ---------------------------------------------------------------------
  // The shared key
  // ---------------------------------------------------------------------

  datatype KeyError = InsufficientKeyMaterial

  /** What `generate_shared_key` returns for the round outputs `outs` of the
      rounds its budget allows. */
  function SharedKey(outs: seq<seq<Bit>>, targetBits: int): (r: Result<seq<Byte>, KeyError>)
    ensures r.Success? ==> |r.value| == if targetBits <= 0 then 0 else (targetBits + 7) / 8
  {
    var pool := Pool(outs, targetBits);
    if |pool| < targetBits then Failure(InsufficientKeyMaterial)
    else if targetBits <= 0 then Success([])
    else Success(PackBits(pool[..targetBits]))
  }

  /** The pool stays short of the target exactly when all the rounds of the
      budget together yield fewer than `target_bits` bits. */
  lemma PoolShortIffAllShort(outs: seq<seq<Bit>>, target: int)
    ensures |Pool(outs, target)| < target <==> |Concat(outs)| < target
  {
    var k := RoundsRun(outs, target);
    ConcatPrefix(outs, k);
    if k == |outs| {
      assert outs[..k] == outs;
    }
  }

  /** The call fails exactly when all the rounds of the budget together
      yield fewer than `target_bits` bits. */
  lemma SharedKeyFailsIffShort(outs: seq<seq<Bit>>, targetBits: int)
    ensures SharedKey(outs, targetBits).Failure? <==> |Concat(outs)| < targetBits
  {
    PoolShortIffAllShort(outs, targetBits);
  }

  /** On success the key packs exactly the first `target_bits` sifted bits,
      in arrival order; the surplus of the last round is discarded. */
  lemma KeyPacksFirstBits(outs: seq<seq<Bit>>, targetBits: int)
    requires 0 < targetBits <= |Concat(outs)|
    ensures SharedKey(outs, targetBits) == Success(PackBits(Concat(outs)[..targetBits]))
  {
    SharedKeyFailsIffShort(outs, targetBits);
    var k := RoundsRun(outs, targetBits);
    var pool := Concat(outs[..k]);
    ConcatPrefix(outs, k);
    assert |pool| >= targetBits;
    assert pool[..targetBits] == Concat(outs)[..targetBits];
  }

  /** With no round to run there is no key for a positive target. */
  lemma NoRoundsNoKey(targetBits: int)
    requires targetBits > 0
    ensures SharedKey([], targetBits) == Failure(InsufficientKeyMaterial)
  {
  }

  /** A budget whose rounds cannot hold `target_bits` qubits always fails,
      whatever the random choices. */
  lemma SmallBudgetFails(rounds: seq<RoundInput>, keyLength: nat, targetBits: int)
    requires forall k :: 0 <= k < |rounds| ==> ValidRound(rounds[k]) && |rounds[k].aliceBases| == keyLength
    requires keyLength * |rounds| < targetBits
    ensures SharedKey(RoundOutputs(rounds), targetBits) == Failure(InsufficientKeyMaterial)
  {
    ConcatBound(RoundOutputs(rounds), keyLength);
    SharedKeyFailsIffShort(RoundOutputs(rounds), targetBits);
  }

  /** The key endpoint asks for 128 bits: a successful call yields 16 bytes. */
  lemma DefaultKeyIs16Bytes(outs: seq<seq<Bit>>)
    ensures SharedKey(outs, 128).Success? ==> |SharedKey(outs, 128).value| == 16
  {
  }

  /** The round loop of `generate_shared_key`: extend the pool round by
      round, leaving as soon as it holds `target_bits` bits. */
  method AccumulatePool(rounds: seq<RoundInput>, targetBits: int, m: nat) returns (pool: seq<Bit>)
    requires m <= |rounds|
    requires forall k :: 0 <= k < |rounds| ==> ValidRound(rounds[k])
    ensures pool == Pool(RoundOutputs(rounds[..m]), targetBits)
  {
    ghost var outs := RoundOutputs(rounds[..m]);
    pool := [];
    var k := 0;
    while k < m
      invariant 0 <= k <= m == |outs|
      invariant pool == Concat(outs[..k])
      // the scan that defines `RoundsRun` has not yet found where to stop
      invariant StopFrom(outs, targetBits, 0) == StopFrom(outs, targetBits, k)
    {
      ConcatStep(outs, k);
      assert outs[k] == RunRound(rounds[k]);
      pool := pool + RunRound(rounds[k]);
      k := k + 1;
      if |pool| >= targetBits {
        break;
      }
    }
    assert RoundsRun(outs, targetBits) == k;
  }

  /** `generate_shared_key(target_bits, max_rounds)`. `rounds[k]` holds the
      random choices and the simulator's answer for round k, for every round
      the budget allows. */
  method GenerateSharedKey(rounds: seq<RoundInput>, targetBits: int, maxRounds: int)
    returns (key: Result<seq<Byte>, KeyError>)
    requires maxRounds <= |rounds|
    requires forall k :: 0 <= k < |rounds| ==> ValidRound(rounds[k])
    ensures key == SharedKey(RoundOutputs(rounds[..Budget(maxRounds)]), targetBits)
  {
    var pool := AccumulatePool(rounds, targetBits, Budget(maxRounds));
    if |pool| < targetBits {
      return Failure(InsufficientKeyMaterial);
    }
    // A non-positive target packs nothing: `range(0, target_bits, 8)` is empty.
    var bits := if targetBits <= 0 then [] else pool[..targetBits];
    var byts := PackKeyBits(bits);
    return Success(byts);
  }

  /** The bits from position i on (none once i is past the end, as a Python slice). */
  function Drop(bits: seq<Bit>, i: nat): (rest: seq<Bit>)
    ensures i <= |bits| ==> rest == bits[i..]
    ensures i >= |bits| ==> rest == []
  {
    if i <= |bits| then bits[i..] else []
  }

  /** One step of the packing loop: the group at i, then the bits from i + 8 on. */
  lemma PackStep(bits: seq<Bit>, i: nat)
    requires i < |bits|
    ensures PackBits(Drop(bits, i))
            == [BitsValue(bits[i .. if i + 8 <= |bits| then i + 8 else |bits|])] + PackBits(Drop(bits, i + 8))
  {
    var rest := bits[i..];
    var w := if |rest| < 8 then |rest| else 8;
    assert rest[..w] == bits[i .. i + w];
    assert rest[w..] == Drop(bits, i + 8);
  }

  /** The inner packing loop, `for b in bits[i:i+8]: val = (val << 1) | b`,
      over the group `bits[lo..hi]`. */
  method GroupValue(bits: seq<Bit>, lo: nat, hi: nat) returns (val: nat)
    requires lo <= hi <= |bits|
    ensures val == BitsValue(bits[lo..hi])
  {
    val := 0;
    var j := lo;
    while j < hi
      invariant lo <= j <= hi
      invariant val == BitsValue(bits[lo..j])
    {
      // `(val << 1) | b` with b in {0, 1} is `2 * val + b`.
      val := 2 * val + bits[j];
      assert bits[lo..j + 1][..j - lo] == bits[lo..j];
      j := j + 1;
    }
  }

  /** The packing loop of `generate_shared_key` over the truncated pool `bits`. */
  method PackKeyBits(bits: seq<Bit>) returns (byts: seq<Byte>)
    ensures byts == PackBits(bits)
  {
    byts := [];
    var i := 0;
    assert Drop(bits, 0) == bits;
    while i < |bits|
      invariant byts + PackBits(Drop(bits, i)) == PackBits(bits)
      decreases |bits| - i
    {
      var end := if i + 8 <= |bits| then i + 8 else |bits|;
      var val := GroupValue(bits, i, end);
      assert val < 256 by { Pow2AtMostByte(end - i); }
      PackStep(bits, i);
      assert byts + [val] + PackBits(Drop(bits, i + 8)) == PackBits(bits);
      byts := byts + [val];
      i := i + 8;
    }
    assert Drop(bits, i) == [];
  }
}
