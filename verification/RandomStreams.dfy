/** What the generator is for: generators obtained by splitting draw unrelated numbers. Inside one
    key this is exact, because the cipher is a bijection and split paths leave distinct bits. */
module RandomStreams {
  import opened Bits
  import opened Threefish
  import opened SplittableRandom

  // -------------------------------------------------------------------------------- streams

  /** The state after n draws, and the number drawn next. */
  function After(s: RandomState, n: nat): (r: RandomState)
    requires s.bitsi <= BITS
    ensures r.bitsi <= BITS
  {
    if n == 0 then s else AfterNext(After(s, n - 1))
  }

  function Drawn(s: RandomState, n: nat): UInt64
    requires s.bitsi <= BITS
  {
    Number(After(s, n))
  }

  lemma {:induction false} AfterDraws(s: RandomState, n: UInt64)
    requires s.bitsi <= BITS && s.counter == 0
    ensures var r := After(s, n);
            && r.key == s.key && r.bits == s.bits && r.bitsi == s.bitsi && r.counter == n
            && (0 < n ==> r.block == BlockFor(s.key, s.bits, LastRefill(n)))
  {
    hide BlockFor;
    if n > 0 {
      AfterDraws(s, n - 1);
      if n > 1 && (n - 1) % 4 != 0 {
        assert LastRefill(n) == LastRefill(n - 1);
      }
    }
  }

  /** Until the counter wraps, the n-th draw is word n mod 4 of the block at n rounded down to a
      multiple of four. */
  lemma DrawnAt(s: RandomState, n: UInt64)
    requires s.bitsi <= BITS && s.counter == 0
    ensures Drawn(s, n) == WordAt(BlockFor(s.key, s.bits, n / 4 * 4), n % 4)
  {
    hide BlockFor;
    AfterDraws(s, n);
  }

  /** On its last draw the counter starts again, on the path continued to the right. */
  lemma CounterWraps(s: RandomState)
    requires s.bitsi < BITS && s.counter == 0 && s.bits < Pow2(s.bitsi)
    ensures var r := After(s, 0x1_0000_0000_0000_0000);
            && r.counter == 0 && r.key == s.key && r.bits == s.bits + Pow2(s.bitsi) && r.bitsi == s.bitsi + 1
  {
    hide BlockFor, Pow2;
    AfterDraws(s, MAX_UINT64);
    AppendBits(Refilled(After(s, MAX_UINT64)), true);
  }

  /** The j-th group of four draws. */
  function DrawnBlock(s: RandomState, j: nat): Block
    requires s.bitsi <= BITS
  {
    Block(Drawn(s, 4 * j), Drawn(s, 4 * j + 1), Drawn(s, 4 * j + 2), Drawn(s, 4 * j + 3))
  }

  lemma DrawnBlockAt(s: RandomState, j: nat)
    requires s.bitsi <= BITS && s.counter == 0 && 4 * j + 3 <= MAX_UINT64
    ensures DrawnBlock(s, j) == BlockFor(s.key, s.bits, 4 * j)
  {
    hide BlockFor, Drawn;
    DrawnAt(s, 4 * j);
    DrawnAt(s, 4 * j + 1);
    DrawnAt(s, 4 * j + 2);
    DrawnAt(s, 4 * j + 3);
  }

  lemma BlockForInjective(key: Block, bits: UInt64, counter: UInt64, bits': UInt64, counter': UInt64)
    requires BlockFor(key, bits, counter) == BlockFor(key, bits', counter')
    ensures bits == bits' && counter == counter'
  {
    hide Encrypt, Decrypt;
    Bijective(key, TWEAK, Block(bits, counter, 0, 0));
    Bijective(key, TWEAK, Block(bits', counter', 0, 0));
  }

  /** Before the counter wraps, no generator draws the same block twice. */
  lemma NoBlockRepeats(s: RandomState, i: nat, j: nat)
    requires s.bitsi <= BITS && s.counter == 0
    requires i != j && 4 * i + 3 <= MAX_UINT64 && 4 * j + 3 <= MAX_UINT64
    ensures DrawnBlock(s, i) != DrawnBlock(s, j)
  {
    hide BlockFor, DrawnBlock;
    DrawnBlockAt(s, i);
    DrawnBlockAt(s, j);
    if DrawnBlock(s, i) == DrawnBlock(s, j) {
      BlockForInjective(s.key, s.bits, 4 * i, s.bits, 4 * j);
    }
  }

  // ---------------------------------------------------------------------------- split paths

  type Path = seq<bool>

  function PathBits(p: Path): nat {
    if p == [] then 0 else (if p[0] then 1 else 0) + 2 * PathBits(p[1..])
  }

  lemma {:induction false} PathBitsSnoc(p: Path, x: bool)
    ensures PathBits(p + [x]) == PathBits(p) + if x then Pow2(|p|) else 0
  {
    if p == [] {
      assert [x][1..] == [];
    } else {
      PathBitsSnoc(p[1..], x);
      assert (p + [x])[1..] == p[1..] + [x];
    }
  }

  /** Going left (false) or right (true) at each of a series of splits. */
  function Follow(s: RandomState, p: Path): (r: RandomState)
    requires s.bitsi + |p| <= BITS
    ensures r.bitsi == s.bitsi + |p|
  {
    if p == [] then s else Append(Follow(s, p[..|p| - 1]), p[|p| - 1])
  }

  lemma {:induction false} FollowBits(s: RandomState, p: Path)
    requires s.bitsi + |p| <= BITS && s.bits < Pow2(s.bitsi)
    ensures s.bits + Shl(PathBits(p), s.bitsi) < Pow2(s.bitsi + |p|) <= TWO_TO_THE_64
    ensures Follow(s, p) == s.(bits := s.bits + Shl(PathBits(p), s.bitsi), bitsi := s.bitsi + |p|)
  {
    hide Pow2, Shl, BlockFor, Append, SetBit64, PathBits;
    Pow2Is64();
    Pow2Grows(s.bitsi + |p|, 64);
    if p == [] {
      PathBitsZero(p);
      ShlSum(0, 0, s.bitsi);
    } else {
      var init, x := p[..|p| - 1], p[|p| - 1];
      assert p == init + [x];
      FollowBits(s, init);
      AppendBits(Follow(s, init), x);
      PathBitsSnoc(init, x);
      ShlSum(PathBits(init), Pow2(|init|), s.bitsi);
      ShlPow2(|init|, s.bitsi);
    }
  }

  predicate PrefixFree(p: Path, q: Path) {
    !(p <= q) && !(q <= p)
  }

  /** q goes left all the way from where p stops. */
  predicate LeftFrom(p: Path, q: Path) {
    p <= q && forall i :: |p| <= i < |q| ==> !q[i]
  }

  lemma {:induction false} PathBitsZero(p: Path)
    ensures PathBits(p) == 0 <==> LeftFrom([], p)
  {
    if p != [] {
      PathBitsZero(p[1..]);
      assert forall i :: 0 <= i < |p[1..]| ==> p[1..][i] == p[i + 1];
      assert forall i :: 1 <= i < |p| ==> p[i] == p[1..][i - 1];
    }
  }

  lemma LeftFromTail(p: Path, q: Path)
    requires p != [] && q != []
    ensures LeftFrom(p, q) <==> p[0] == q[0] && LeftFrom(p[1..], q[1..])
  {
    assert p == [p[0]] + p[1..] && q == [q[0]] + q[1..];
    assert forall i :: |p[1..]| <= i < |q[1..]| ==> q[1..][i] == q[i + 1];
    if p[0] == q[0] && LeftFrom(p[1..], q[1..]) {
      forall i | |p| <= i < |q| ensures !q[i] {
        assert q[i] == q[1..][i - 1];
      }
    }
  }

  /** Two paths leave the same bits only when one is the other continued to the left. */
  lemma {:induction false} SameBits(p: Path, q: Path)
    ensures PathBits(p) == PathBits(q) <==> LeftFrom(p, q) || LeftFrom(q, p)
  {
    if p == [] {
      PathBitsZero(q);
    } else if q == [] {
      PathBitsZero(p);
    } else {
      SameBits(p[1..], q[1..]);
      LeftFromTail(p, q);
      LeftFromTail(q, p);
    }
  }

  lemma SameStateBits(root: RandomState, p: Path, q: Path)
    requires Inv(root) && root.bitsi + |p| <= BITS && root.bitsi + |q| <= BITS
    ensures Follow(root, p).bits == Follow(root, q).bits <==> PathBits(p) == PathBits(q)
    ensures Follow(root, p).key == Follow(root, q).key
    ensures Follow(root, p).counter == Follow(root, q).counter == root.counter
  {
    hide Follow, PathBits;
    FollowBits(root, p);
    FollowBits(root, q);
    if PathBits(p) < PathBits(q) {
      ShlGrows(PathBits(p), PathBits(q), root.bitsi);
    } else if PathBits(q) < PathBits(p) {
      ShlGrows(PathBits(q), PathBits(p), root.bitsi);
    }
  }

  lemma ShlGrows(x: nat, y: nat, n: nat)
    requires x < y
    ensures Shl(x, n) < Shl(y, n)
  {
    assert y * Pow2(n) == x * Pow2(n) + (y - x) * Pow2(n);
    MulGrows(Pow2(n), y - x);
  }

  /** Generators on diverging paths never draw a block in common, at whatever positions. */
  lemma SplitStreamsDisjoint(root: RandomState, p: Path, q: Path, i: nat, j: nat)
    requires Inv(root) && root.counter == 0 && root.bitsi + |p| <= BITS && root.bitsi + |q| <= BITS
    requires PrefixFree(p, q) && 4 * i + 3 <= MAX_UINT64 && 4 * j + 3 <= MAX_UINT64
    ensures DrawnBlock(Follow(root, p), i) != DrawnBlock(Follow(root, q), j)
  {
    hide BlockFor, DrawnBlock, Inv;
    var s, t := Follow(root, p), Follow(root, q);
    SameBits(p, q);
    SameStateBits(root, p, q);
    DrawnBlockAt(s, i);
    DrawnBlockAt(t, j);
    if DrawnBlock(s, i) == DrawnBlock(t, j) {
      BlockForInjective(s.key, s.bits, 4 * i, t.bits, 4 * j);
    }
  }

  /** Two generators of one tree draw the same numbers exactly when one of them is reached from
      the other by left turns alone; otherwise they differ in each of their blocks. */
  lemma SameStream(root: RandomState, p: Path, q: Path)
    requires Inv(root) && root.counter == 0 && root.bitsi + |p| <= BITS && root.bitsi + |q| <= BITS
    ensures (forall n: UInt64 :: Drawn(Follow(root, p), n) == Drawn(Follow(root, q), n))
       <==> LeftFrom(p, q) || LeftFrom(q, p)
  {
    hide BlockFor, Drawn, Inv;
    var s, t := Follow(root, p), Follow(root, q);
    SameBits(p, q);
    SameStateBits(root, p, q);
    if LeftFrom(p, q) || LeftFrom(q, p) {
      forall n: UInt64 ensures Drawn(s, n) == Drawn(t, n) {
        DrawnAt(s, n);
        DrawnAt(t, n);
      }
    } else {
      DrawnBlockAt(s, 0);
      DrawnBlockAt(t, 0);
      if forall n: UInt64 :: Drawn(s, n) == Drawn(t, n) {
        assert DrawnBlock(s, 0) == DrawnBlock(t, 0);
        BlockForInjective(s.key, s.bits, 0, t.bits, 0);
      }
    }
  }

  lemma FollowKeepsRest(root: RandomState, p: Path)
    requires Inv(root) && root.bitsi + |p| <= BITS
    ensures Follow(root, p).key == root.key && Follow(root, p).counter == root.counter
  {
    FollowBits(root, p);
  }

  /** A path that fills the 64 bits goes into the key with the next split: generators on different
      full paths continue under different keys. */
  lemma FullPathsRekeyApart(root: RandomState, p: Path, q: Path, x: bool, y: bool)
    requires Inv(root) && root.counter == 0 && root.bitsi + |p| == BITS == root.bitsi + |q| && p != q
    ensures Append(Follow(root, p), x).key == BlockFor(root.key, Follow(root, p).bits, 0)
    ensures Append(Follow(root, p), x).key != Append(Follow(root, q), y).key
  {
    hide BlockFor, Inv, SetBit64, Follow, PathBits;
    SameBits(p, q);
    SameStateBits(root, p, q);
    FollowKeepsRest(root, p);
    FollowKeepsRest(root, q);
    var s, t := Follow(root, p), Follow(root, q);
    assert s.key == t.key && s.bits != t.bits && s.bitsi == BITS == t.bitsi;
    if BlockFor(s.key, s.bits, 0) == BlockFor(t.key, t.bits, 0) {
      BlockForInjective(s.key, s.bits, 0, t.bits, 0);
    }
  }

  // --------------------------------------------------------- whole runs of splitting generators

  /** Splitting a live generator: it goes left and its right half joins the others. */
  function SplitOne(live: seq<Path>, i: nat): seq<Path>
    requires i < |live|
  {
    live[i := live[i] + [false]] + [live[i] + [true]]
  }

  predicate CanSplit(live: seq<Path>, choices: seq<nat>)
    decreases |choices|
  {
    choices != [] ==> choices[0] < |live| && CanSplit(SplitOne(live, choices[0]), choices[1..])
  }

  function SplitAll(live: seq<Path>, choices: seq<nat>): seq<Path>
    requires CanSplit(live, choices)
    decreases |choices|
  {
    if choices == [] then live else SplitAll(SplitOne(live, choices[0]), choices[1..])
  }

  ghost predicate Diverging(live: seq<Path>) {
    forall a, b :: 0 <= a < b < |live| ==> PrefixFree(live[a], live[b])
  }

  lemma PrefixFreeExtends(p: Path, q: Path, x: bool)
    requires PrefixFree(p, q)
    ensures PrefixFree(p + [x], q) && PrefixFree(q, p + [x])
  {
  }

  lemma SplitOneDiverges(live: seq<Path>, i: nat)
    requires Diverging(live) && i < |live|
    ensures Diverging(SplitOne(live, i))
  {
    var after := SplitOne(live, i);
    forall a, b | 0 <= a < b < |after| ensures PrefixFree(after[a], after[b]) {
      if b == |live| {
        if a == i {
          assert after[a][|live[i]|] != after[b][|live[i]|];
        } else {
          PrefixFreeExtends(live[i], live[a], true);
        }
      } else if a == i {
        PrefixFreeExtends(live[i], live[b], false);
      } else if b == i {
        PrefixFreeExtends(live[i], live[a], false);
      }
    }
  }

  lemma {:induction false} SplitAllDiverges(live: seq<Path>, choices: seq<nat>)
    requires Diverging(live) && CanSplit(live, choices)
    ensures Diverging(SplitAll(live, choices))
    decreases |choices|
  {
    hide Diverging;
    if choices != [] {
      SplitOneDiverges(live, choices[0]);
      SplitAllDiverges(SplitOne(live, choices[0]), choices[1..]);
    }
  }

  /** However a fresh generator and its descendants are split, any two live generators at most
      64 splits deep have no block of their streams in common. */
  lemma LiveGeneratorsDisjoint(key: Block, choices: seq<nat>, a: nat, b: nat, i: nat, j: nat)
    requires CanSplit([[]], choices)
    requires a < |SplitAll([[]], choices)| && b < |SplitAll([[]], choices)| && a != b
    requires |SplitAll([[]], choices)[a]| <= BITS && |SplitAll([[]], choices)[b]| <= BITS
    requires 4 * i + 3 <= MAX_UINT64 && 4 * j + 3 <= MAX_UINT64
    ensures DrawnBlock(Follow(Fresh(key), SplitAll([[]], choices)[a]), i)
         != DrawnBlock(Follow(Fresh(key), SplitAll([[]], choices)[b]), j)
  {
    hide DrawnBlock, Follow, SplitAll, CanSplit;
    var live := SplitAll([[]], choices);
    SplitAllDiverges([[]], choices);
    Pow2Values();
    assert PrefixFree(live[a], live[b]);
    SplitStreamsDisjoint(Fresh(key), live[a], live[b], i, j);
  }

  // ----------------------------------------------------------------------- same future outputs

  /** Equal but for a cached block that will be recomputed before it is read. */
  predicate Interchangeable(s: RandomState, t: RandomState) {
    && s.key == t.key && s.bits == t.bits && s.counter == t.counter && s.bitsi == t.bitsi
    && (0 < s.counter ==> s.block == t.block)
  }

  /** The numbers drawn along a run. */
  function Numbers(s: RandomState, steps: seq<Step>): seq<UInt64>
    requires CanRun(s, steps)
    decreases |steps|
  {
    if steps == [] then []
    else (if steps[0].Next? then [Number(s)] else []) + Numbers(Apply(s, steps[0]), steps[1..])
  }

  lemma StepInterchangeable(s: RandomState, t: RandomState, step: Step)
    requires Interchangeable(s, t) && Enabled(s, step)
    ensures Enabled(t, step) && Interchangeable(Apply(s, step), Apply(t, step)) && Number(s) == Number(t)
  {
    hide BlockFor;
  }

  lemma {:induction false} SameFuture(s: RandomState, t: RandomState, steps: seq<Step>)
    requires Interchangeable(s, t) && CanRun(s, steps)
    ensures CanRun(t, steps) && Numbers(s, steps) == Numbers(t, steps)
    ensures Interchangeable(Run(s, steps), Run(t, steps))
    decreases |steps|
  {
    hide Apply, Enabled, Interchangeable, Number;
    if steps != [] {
      StepInterchangeable(s, t, steps[0]);
      SameFuture(Apply(s, steps[0]), Apply(t, steps[0]), steps[1..]);
    }
  }
}
