/** The splittable generator: its state machine, the class that runs it in place, and what the
    states it reaches and the numbers it yields have in common. */
module SplittableRandom {
  import opened Bits
  import opened Threefish

  const BITS: nat := 64
  const ZERO_BLOCK := Block(0, 0, 0, 0)

  datatype RandomState = RandomState(key: Block, block: Block, bits: UInt64, counter: UInt64, bitsi: Byte)

  // ----------------------------------------------------------------------------- transitions

  /** The block for a position: the encryption of (bits, counter). */
  function BlockFor(key: Block, bits: UInt64, counter: UInt64): Block {
    Encrypt(key, TWEAK, Block(bits, counter, 0, 0))
  }

  function Fresh(key: Block): RandomState {
    RandomState(key, ZERO_BLOCK, 0, 0, 0)
  }

  function Seeded(seed: UInt64): RandomState {
    Fresh(Block(seed, seed, seed, seed))
  }

  /** Appends a path bit; a full path is first folded into the key. */
  function Append(s: RandomState, x: bool): RandomState
    requires s.bitsi <= BITS
  {
    var r := if s.bitsi == BITS then s.(key := BlockFor(s.key, s.bits, s.counter), bits := 0, bitsi := 0) else s;
    r.(bits := if x then SetBit64(r.bits, r.bitsi) else r.bits, bitsi := r.bitsi + 1)
  }

  /** The cached block is recomputed whenever the counter is a multiple of four. */
  function Refilled(s: RandomState): RandomState {
    if s.counter % 4 == 0 then s.(block := BlockFor(s.key, s.bits, s.counter)) else s
  }

  function AfterNext(s: RandomState): RandomState
    requires s.bitsi <= BITS
  {
    var r := Refilled(s);
    if r.counter == MAX_UINT64 then Append(r, true).(counter := 0) else r.(counter := r.counter + 1)
  }

  function WordAt(b: Block, i: nat): UInt64
    requires i < 4
  {
    match i
    case 0 => b.w0
    case 1 => b.w1
    case 2 => b.w2
    case _ => b.w3
  }

  function Number(s: RandomState): UInt64 {
    WordAt(Refilled(s).block, s.counter % 4)
  }

  // ------------------------------------------------------------------------------- the class

  class Random {
    var key: Block
    var block: Block
    var bits: UInt64
    var counter: UInt64
    var bitsi: Byte

    function State(): RandomState
      reads this
    {
      RandomState(key, block, bits, counter, bitsi)
    }

    constructor Default()
      ensures State() == Fresh(ZERO_BLOCK)
    {
      key, block, bits, counter, bitsi := ZERO_BLOCK, ZERO_BLOCK, 0, 0, 0;
    }

    constructor FromKey(key: Block)
      ensures State() == Fresh(key)
    {
      this.key, block, bits, counter, bitsi := key, ZERO_BLOCK, 0, 0, 0;
    }

    constructor FromSeed(seed: UInt64)
      ensures State() == Seeded(seed)
    {
      key, block, bits, counter, bitsi := Block(seed, seed, seed, seed), ZERO_BLOCK, 0, 0, 0;
    }

    constructor Copy(other: Random)
      ensures State() == other.State()
    {
      key, block, bits := other.key, other.block, other.bits;
      counter, bitsi := other.counter, other.bitsi;
    }

    /** Both halves of a split continue from the same key; this one takes the left branch. */
    method Split() returns (right: Random)
      requires counter == 0 && bitsi <= BITS
      modifies this
      ensures fresh(right)
      ensures State() == Append(old(State()), false)
      ensures right.State() == Append(old(State()), true)
    {
      right := new Random.Copy(this);
      AppendBit(false);
      right.AppendBit(true);
    }

    method Next() returns (x: UInt64)
      requires bitsi <= BITS
      modifies this
      ensures x == Number(old(State()))
      ensures State() == AfterNext(old(State()))
    {
      hide BlockFor;
      var blki := counter % 4;
      if blki == 0 {
        block := MashBlock();
      }
      if counter == MAX_UINT64 {
        AppendBit(true);
        counter := 0;
      } else {
        counter := counter + 1;
      }
      x := WordAt(block, blki);
    }

    method AppendBit(x: bool)
      requires bitsi <= BITS
      modifies this
      ensures State() == Append(old(State()), x)
    {
      hide BlockFor;
      if bitsi == BITS {
        key := MashBlock();
        bitsi := 0;
        bits := 0;
      }
      if x {
        bits := SetBit64(bits, bitsi);
      }
      bitsi := bitsi + 1;
    }

    method MashBlock() returns (output: Block)
      ensures output == BlockFor(key, bits, counter)
    {
      output := Mash(key, bits, counter);
    }
  }

  // ------------------------------------------------------------------- runs and their invariant

  datatype Step = Next | GoLeft | GoRight

  /** `split` asserts that no number has been drawn since the last one. */
  predicate Enabled(s: RandomState, step: Step) {
    s.bitsi <= BITS && (step.Next? || s.counter == 0)
  }

  function Apply(s: RandomState, step: Step): RandomState
    requires Enabled(s, step)
  {
    match step
    case Next => AfterNext(s)
    case GoLeft => Append(s, false)
    case GoRight => Append(s, true)
  }

  predicate CanRun(s: RandomState, steps: seq<Step>)
    decreases |steps|
  {
    steps != [] ==> Enabled(s, steps[0]) && CanRun(Apply(s, steps[0]), steps[1..])
  }

  function Run(s: RandomState, steps: seq<Step>): RandomState
    requires CanRun(s, steps)
    decreases |steps|
  {
    if steps == [] then s else Run(Apply(s, steps[0]), steps[1..])
  }

  /** The counter position whose block a state that has drawn `counter` numbers holds. */
  function LastRefill(counter: UInt64): UInt64
    requires 0 < counter
  {
    (counter - 1) / 4 * 4
  }

  ghost predicate Inv(s: RandomState) {
    && s.bitsi <= BITS
    && s.bits < Pow2(s.bitsi)
    && (0 < s.counter ==> s.block == BlockFor(s.key, s.bits, LastRefill(s.counter)))
  }

  lemma AppendBits(s: RandomState, x: bool)
    requires s.bitsi <= BITS && s.bits < Pow2(s.bitsi)
    ensures var r := Append(s, x);
            var full := s.bitsi == BITS;
            && 0 < r.bitsi <= BITS
            && r.bits == (if full then 0 else s.bits) + (if x then Pow2(r.bitsi - 1) else 0) < Pow2(r.bitsi)
            && (!full ==> r == s.(bits := r.bits, bitsi := s.bitsi + 1))
            && (full ==> r == s.(key := Encrypt(s.key, Tweak(13, 37), Block(s.bits, s.counter, 0, 0)),
                                 bits := r.bits, bitsi := 1))
  {
    hide Encrypt;
    var r := if s.bitsi == BITS then s.(key := BlockFor(s.key, s.bits, s.counter), bits := 0, bitsi := 0) else s;
    OrDisjoint(r.bits, 1, r.bitsi);
  }

  lemma StepKeepsInv(s: RandomState, step: Step)
    requires Inv(s) && Enabled(s, step)
    ensures Inv(Apply(s, step))
  {
    hide BlockFor, Pow2;
    match step
    case Next =>
      if s.counter == MAX_UINT64 {
        AppendBits(Refilled(s), true);
      } else if s.counter % 4 == 0 {
        assert LastRefill(s.counter + 1) == s.counter;
      } else {
        assert LastRefill(s.counter + 1) == LastRefill(s.counter);
      }
    case GoLeft => AppendBits(s, false);
    case GoRight => AppendBits(s, true);
  }

  /** Every state reached from a fresh generator satisfies the invariant, and a run is never
      stuck on a full path: only a split after a draw is not enabled. */
  lemma {:induction false} RunKeepsInv(s: RandomState, steps: seq<Step>)
    requires Inv(s) && CanRun(s, steps)
    ensures Inv(Run(s, steps))
    ensures forall step :: Enabled(Run(s, steps), step) <==> step.Next? || Run(s, steps).counter == 0
    decreases |steps|
  {
    hide Inv, Apply;
    if steps == [] {
      InvBounds(s);
    } else {
      StepKeepsInv(s, steps[0]);
      RunKeepsInv(Apply(s, steps[0]), steps[1..]);
    }
  }

  lemma InvBounds(s: RandomState)
    requires Inv(s)
    ensures s.bitsi <= BITS
  {
  }

  lemma ReachableInv(key: Block, steps: seq<Step>)
    requires CanRun(Fresh(key), steps)
    ensures Inv(Run(Fresh(key), steps))
  {
    assert Inv(Fresh(key)) by {
      Pow2Values();
    }
    RunKeepsInv(Fresh(key), steps);
  }
}
