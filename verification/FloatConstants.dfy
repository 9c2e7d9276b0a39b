/**
 * Packing a shader's float constants: the ones its bitmap names, four dwords each, in ascending
 * order of register, into a block of a fixed number of slots.
 */
module FloatConstants {

  type Dword = w: nat | w < 0x1_0000_0000

  // ---------------------------------------------------------------- bits of a bitmap word

  predicate Bit(n: nat, i: nat)
    decreases i
  {
    if i == 0 then n % 2 == 1 else Bit(n / 2, i - 1)
  }

  /** How many zero bits lie below the lowest set one. */
  function TrailingZeros(n: nat): nat
    requires n > 0
  {
    if n % 2 == 1 then 0 else 1 + TrailingZeros(n / 2)
  }

  /** The word with bit i cleared. */
  function Cleared(n: nat, i: nat): nat
    decreases i
  {
    if i == 0 then n - n % 2 else n % 2 + 2 * Cleared(n / 2, i - 1)
  }

  lemma {:induction false} ClearedBits(n: nat, i: nat, j: nat)
    ensures Bit(Cleared(n, i), j) <==> j != i && Bit(n, j)
    decreases i, j
  {
    if i == 0 {
      assert (n - n % 2) / 2 == n / 2;
    } else {
      assert Cleared(n, i) / 2 == Cleared(n / 2, i - 1);
      if j > 0 {
        ClearedBits(n / 2, i - 1, j - 1);
      }
    }
  }

  lemma {:induction false} ClearedIsLess(n: nat, i: nat)
    requires Bit(n, i)
    ensures Cleared(n, i) < n
    decreases i
  {
    if i > 0 {
      ClearedIsLess(n / 2, i - 1);
    }
  }

  lemma {:induction false} LowestBit(n: nat)
    requires n > 0
    ensures Bit(n, TrailingZeros(n))
    ensures forall j :: 0 <= j < TrailingZeros(n) ==> !Bit(n, j)
    decreases n
  {
    if n % 2 == 0 {
      LowestBit(n / 2);
      forall j | 0 <= j < TrailingZeros(n)
        ensures !Bit(n, j)
      {
        if j > 0 {
          assert !Bit(n / 2, j - 1);
        }
      }
    }
  }

  lemma {:induction false} ZeroHasNoBits(j: nat)
    ensures !Bit(0, j)
  {
    if j > 0 {
      ZeroHasNoBits(j - 1);
    }
  }

  // ---------------------------------------------------------------- the constants a bitmap names

  /** Four words of 64 bits, one bit a constant. */
  ghost predicate IsBitmap(bitmap: seq<nat>) {
    |bitmap| == 4 && forall b, i :: 0 <= b < 4 && i >= 64 ==> !Bit(bitmap[b], i)
  }

  predicate Used(bitmap: seq<nat>, constant: nat)
    requires |bitmap| == 4 && constant < 256
  {
    Bit(bitmap[constant / 64], constant % 64)
  }

  /** How many used constants come before this one: its slot in the block. */
  function Slot(bitmap: seq<nat>, constant: nat): (slot: nat)
    requires |bitmap| == 4 && constant <= 256
    ensures slot <= constant
  {
    if constant == 0 then 0
    else Slot(bitmap, constant - 1) + if Used(bitmap, constant - 1) then 1 else 0
  }

  lemma {:induction false} SlotsAscend(bitmap: seq<nat>, c: nat, d: nat)
    requires |bitmap| == 4 && c < d <= 256
    ensures Slot(bitmap, c) <= Slot(bitmap, d)
    ensures Used(bitmap, c) ==> Slot(bitmap, c) < Slot(bitmap, d)
    decreases d - c
  {
    if c + 1 < d {
      SlotsAscend(bitmap, c, d - 1);
    }
  }

  /** Every slot below the last belongs to a used constant, so the slots leave no gap. */
  lemma {:induction false} SlotsAreFilled(bitmap: seq<nat>, d: nat, slot: nat) returns (c: nat)
    requires |bitmap| == 4 && d <= 256 && slot < Slot(bitmap, d)
    ensures c < d && Used(bitmap, c) && Slot(bitmap, c) == slot
    decreases d
  {
    if Used(bitmap, d - 1) && Slot(bitmap, d - 1) == slot {
      c := d - 1;
    } else {
      c := SlotsAreFilled(bitmap, d - 1, slot);
    }
  }

  lemma {:induction false} NothingBetween(bitmap: seq<nat>, c: nat, d: nat)
    requires |bitmap| == 4 && c <= d <= 256
    requires forall k :: c <= k < d ==> !Used(bitmap, k)
    ensures Slot(bitmap, c) == Slot(bitmap, d)
    decreases d - c
  {
    if c < d {
      NothingBetween(bitmap, c, d - 1);
    }
  }

  lemma {:induction false} UsedInWord(bitmap: seq<nat>, block: nat, i: nat)
    requires |bitmap| == 4 && block < 4 && i < 64
    ensures Used(bitmap, block * 64 + i) <==> Bit(bitmap[block], i)
  {
    assert (block * 64 + i) / 64 == block && (block * 64 + i) % 64 == i;
  }

  // ---------------------------------------------------------------- the packer

  predicate ConstantAt(out: seq<Dword>, slot: nat, regs: seq<Dword>, at: nat) {
    && 4 * slot + 4 <= |out| && at + 4 <= |regs|
    && out[4 * slot..4 * slot + 4] == regs[at..at + 4]
  }

  /** Every used constant below the limit is in its own slot, and everything behind them is zero. */
  ghost predicate Packed(out: seq<Dword>, regs: seq<Dword>, regBase: nat, bitmap: seq<nat>, limit: nat)
    requires |bitmap| == 4 && limit <= 256
  {
    && (forall c :: 0 <= c < limit && Used(bitmap, c) ==>
          ConstantAt(out, Slot(bitmap, c), regs, regBase + 4 * c))
    && (forall k :: 4 * Slot(bitmap, limit) <= k < |out| ==> out[k] == 0)
  }

  /** The packer has come this far, and its next slot is w. */
  ghost predicate Reached(out: seq<Dword>, regs: seq<Dword>, regBase: nat, bitmap: seq<nat>, limit: nat, w: nat)
    requires |bitmap| == 4
  {
    limit <= 256 && w == Slot(bitmap, limit) && Packed(out, regs, regBase, bitmap, limit)
  }

  lemma {:induction false} ReachedSkips(out: seq<Dword>, regs: seq<Dword>, regBase: nat, bitmap: seq<nat>,
                                        c: nat, d: nat, w: nat)
    requires |bitmap| == 4 && c <= d <= 256 && Reached(out, regs, regBase, bitmap, c, w)
    requires forall k :: c <= k < d ==> !Used(bitmap, k)
    ensures Reached(out, regs, regBase, bitmap, d, w)
  {
    NothingBetween(bitmap, c, d);
  }

  /** Where the next constant goes, the block still holds zeros; storing it keeps the rest. */
  lemma {:induction false} PackedGrows(was: seq<Dword>, now: seq<Dword>, regs: seq<Dword>, regBase: nat,
                                       bitmap: seq<nat>, c: nat)
    requires |bitmap| == 4 && c < 256 && Used(bitmap, c) && Packed(was, regs, regBase, bitmap, c)
    requires |now| == |was| && ConstantAt(now, Slot(bitmap, c), regs, regBase + 4 * c)
    requires now[..4 * Slot(bitmap, c)] == was[..4 * Slot(bitmap, c)]
    requires now[4 * Slot(bitmap, c) + 4..] == was[4 * Slot(bitmap, c) + 4..]
    ensures Packed(now, regs, regBase, bitmap, c + 1)
  {
    var next := Slot(bitmap, c);
    forall b | 0 <= b < c + 1 && Used(bitmap, b)
      ensures ConstantAt(now, Slot(bitmap, b), regs, regBase + 4 * b)
    {
      if b < c {
        var slot := Slot(bitmap, b);
        SlotsAscend(bitmap, b, c);
        EarlierSlotStays(was, now, regs, regBase + 4 * b, slot, next);
      }
    }
    forall k | 4 * Slot(bitmap, c + 1) <= k < |now|
      ensures now[k] == 0
    {
      LaterDwordStays(was, now, 4 * next + 4, k);
    }
  }

  lemma {:induction false} EarlierSlotStays(was: seq<Dword>, now: seq<Dword>, regs: seq<Dword>, at: nat, slot: nat, next: nat)
    requires slot < next && 4 * next <= |was| == |now| && now[..4 * next] == was[..4 * next]
    requires ConstantAt(was, slot, regs, at)
    ensures ConstantAt(now, slot, regs, at)
  {
    assert now[4 * slot..4 * slot + 4] == now[..4 * next][4 * slot..4 * slot + 4];
    assert was[4 * slot..4 * slot + 4] == was[..4 * next][4 * slot..4 * slot + 4];
  }

  lemma {:induction false} LaterDwordStays(was: seq<Dword>, now: seq<Dword>, from: nat, k: nat)
    requires from <= k < |was| == |now| && now[from..] == was[from..]
    ensures now[k] == was[k]
  {
    assert now[k] == now[from..][k - from] && was[k] == was[from..][k - from];
  }

  method StoreConstant(out: array<Dword>, w: nat, regs: seq<Dword>, at: nat)
    requires 4 * w + 4 <= out.Length && at + 4 <= |regs|
    modifies out
    ensures ConstantAt(out[..], w, regs, at)
    ensures out[..][..4 * w] == old(out[..])[..4 * w] && out[..][4 * w + 4..] == old(out[..])[4 * w + 4..]
  {
    forall k | 0 <= k < 4 {
      out[4 * w + k] := regs[at + k];
    }
  }

  /** What is left of a word once every bit below next has been taken. */
  ghost predicate Left(entry: nat, bitmap: seq<nat>, block: nat, next: nat)
    requires |bitmap| == 4 && block < 4
  {
    && next <= 64
    && (forall i :: 0 <= i < next ==> !Bit(entry, i))
    && (forall i :: i >= next ==> (Bit(entry, i) <==> Bit(bitmap[block], i)))
  }

  lemma {:induction false} NextIsLowest(bitmap: seq<nat>, block: nat, entry: nat, next: nat)
    requires IsBitmap(bitmap) && block < 4 && entry > 0 && Left(entry, bitmap, block, next)
    ensures next <= TrailingZeros(entry) < 64
    ensures Used(bitmap, block * 64 + TrailingZeros(entry))
    ensures forall k :: block * 64 + next <= k < block * 64 + TrailingZeros(entry) ==> !Used(bitmap, k)
  {
    LowestBit(entry);
    var idx := TrailingZeros(entry);
    assert Bit(entry, idx);
    UsedInWord(bitmap, block, idx);
    forall k | block * 64 + next <= k < block * 64 + idx
      ensures !Used(bitmap, k)
    {
      UsedInWord(bitmap, block, k - block * 64);
      assert !Bit(entry, k - block * 64);
    }
  }

  lemma {:induction false} TakingLowest(bitmap: seq<nat>, block: nat, entry: nat, next: nat)
    requires IsBitmap(bitmap) && block < 4 && entry > 0 && Left(entry, bitmap, block, next)
    ensures Cleared(entry, TrailingZeros(entry)) < entry
    ensures Left(Cleared(entry, TrailingZeros(entry)), bitmap, block, TrailingZeros(entry) + 1)
  {
    var idx := TrailingZeros(entry);
    NextIsLowest(bitmap, block, entry, next);
    LowestBit(entry);
    ClearedIsLess(entry, idx);
    forall i: nat
      ensures Bit(Cleared(entry, idx), i) <==> i != idx && Bit(entry, i)
    {
      ClearedBits(entry, idx, i);
    }
  }

  lemma {:induction false} RestUnused(bitmap: seq<nat>, block: nat, next: nat)
    requires IsBitmap(bitmap) && block < 4 && Left(0, bitmap, block, next)
    ensures forall k :: block * 64 + next <= k < block * 64 + 64 ==> !Used(bitmap, k)
  {
    forall k | block * 64 + next <= k < block * 64 + 64
      ensures !Used(bitmap, k)
    {
      UsedInWord(bitmap, block, k - block * 64);
      ZeroHasNoBits(k - block * 64);
    }
  }

  /** Stores one used constant in the slot it is due. */
  method PackOne(out: array<Dword>, regs: seq<Dword>, regBase: nat, bitmap: seq<nat>, ghost from: nat, constant: nat, w: nat)
    requires |bitmap| == 4 && from <= constant < 256 && Used(bitmap, constant) && regBase + 1024 <= |regs|
    requires forall k :: from <= k < constant ==> !Used(bitmap, k)
    requires 4 * Slot(bitmap, 256) <= out.Length
    requires Reached(out[..], regs, regBase, bitmap, from, w)
    modifies out
    ensures Reached(out[..], regs, regBase, bitmap, constant + 1, w + 1)
  {
    ReachedSkips(out[..], regs, regBase, bitmap, from, constant, w);
    SlotsAscend(bitmap, constant, 256);
    ghost var was := out[..];
    StoreConstant(out, w, regs, regBase + constant * 4);
    PackedGrows(was, out[..], regs, regBase, bitmap, constant);
  }

  /** One turn of the bit-clearing loop. */
  method PackLowest(out: array<Dword>, regs: seq<Dword>, regBase: nat, bitmap: seq<nat>, block: nat,
                    entry: nat, ghost next: nat, w: nat)
    returns (rest: nat, ghost after: nat)
    requires IsBitmap(bitmap) && block < 4 && regBase + 1024 <= |regs|
    requires 4 * Slot(bitmap, 256) <= out.Length
    requires entry != 0 && Left(entry, bitmap, block, next)
    requires Reached(out[..], regs, regBase, bitmap, block * 64 + next, w)
    modifies out
    ensures rest < entry && Left(rest, bitmap, block, after)
    ensures Reached(out[..], regs, regBase, bitmap, block * 64 + after, w + 1)
  {
    var idx := TrailingZeros(entry);
    NextIsLowest(bitmap, block, entry, next);
    TakingLowest(bitmap, block, entry, next);
    rest := Cleared(entry, idx);
    PackOne(out, regs, regBase, bitmap, block * 64 + next, block * 64 + idx, w);
    after := idx + 1;
  }

  /** One word of the bitmap: take the lowest set bit, clear it, store its constant, until none is left. */
  method PackWord(out: array<Dword>, regs: seq<Dword>, regBase: nat, bitmap: seq<nat>, block: nat, w0: nat)
    returns (w: nat)
    requires IsBitmap(bitmap) && block < 4 && regBase + 1024 <= |regs|
    requires 4 * Slot(bitmap, 256) <= out.Length
    requires Reached(out[..], regs, regBase, bitmap, block * 64, w0)
    modifies out
    ensures Reached(out[..], regs, regBase, bitmap, block * 64 + 64, w)
  {
    w := w0;
    var entry := bitmap[block];
    ghost var next := 0;
    while entry != 0
      invariant Left(entry, bitmap, block, next)
      invariant Reached(out[..], regs, regBase, bitmap, block * 64 + next, w)
      decreases entry
    {
      entry, next := PackLowest(out, regs, regBase, bitmap, block, entry, next, w);
      w := w + 1;
    }
    RestUnused(bitmap, block, next);
    ReachedSkips(out[..], regs, regBase, bitmap, block * 64 + next, block * 64 + 64, w);
  }

  /** Four dwords of the block are four dwords of the registers. */
  lemma {:induction false} ConstantDwords(out: seq<Dword>, slot: nat, regs: seq<Dword>, at: nat)
    requires ConstantAt(out, slot, regs, at)
    ensures 4 * slot + 4 <= |out| && at + 4 <= |regs|
    ensures out[4 * slot] == regs[at] && out[4 * slot + 1] == regs[at + 1]
    ensures out[4 * slot + 2] == regs[at + 2] && out[4 * slot + 3] == regs[at + 3]
  {
    var of, reg := out[4 * slot..4 * slot + 4], regs[at..at + 4];
    assert of[0] == reg[0] && of[1] == reg[1] && of[2] == reg[2] && of[3] == reg[3];
  }

  /** Dword by dword: each used constant's four are in its slot, and what is behind the last slot is zero. */
  lemma {:induction false} PackedDwords(out: seq<Dword>, regs: seq<Dword>, regBase: nat, bitmap: seq<nat>, c: nat, k: nat)
    requires |bitmap| == 4 && Packed(out, regs, regBase, bitmap, 256)
    ensures c < 256 && Used(bitmap, c) ==>
              var slot, at := Slot(bitmap, c), regBase + 4 * c;
              && 4 * slot + 4 <= |out| && at + 4 <= |regs|
              && out[4 * slot] == regs[at] && out[4 * slot + 1] == regs[at + 1]
              && out[4 * slot + 2] == regs[at + 2] && out[4 * slot + 3] == regs[at + 3]
    ensures 4 * Slot(bitmap, 256) <= k < |out| ==> out[k] == 0
  {
    if c < 256 && Used(bitmap, c) {
      ConstantDwords(out, Slot(bitmap, c), regs, regBase + 4 * c);
    }
  }

  /**
   * The whole block: constant c is in the slot counted by the used constants below it, and every
   * slot past the last used one is zero.
   */
  method PackFloatConstants(regs: seq<Dword>, bitmap: seq<nat>, floatCount: nat, regBase: nat)
    returns (out: array<Dword>)
    requires IsBitmap(bitmap) && regBase + 1024 <= |regs|
    requires Slot(bitmap, 256) <= (if floatCount > 1 then floatCount else 1)
    ensures fresh(out) && out.Length == 4 * if floatCount > 1 then floatCount else 1
    ensures Packed(out[..], regs, regBase, bitmap, 256)
  {
    out := new Dword[4 * if floatCount > 1 then floatCount else 1](_ => 0);
    var w: nat := 0;
    for block := 0 to 4
      invariant fresh(out)
      invariant Reached(out[..], regs, regBase, bitmap, block * 64, w)
    {
      w := PackWord(out, regs, regBase, bitmap, block, w);
    }
  }

  /** The block's contents slot by slot: slot s holds the s-th used constant, and there is one. */
  lemma {:induction false} SlotHoldsItsConstant(out: seq<Dword>, regs: seq<Dword>, regBase: nat, bitmap: seq<nat>, slot: nat)
    returns (c: nat)
    requires |bitmap| == 4 && Packed(out, regs, regBase, bitmap, 256) && slot < Slot(bitmap, 256)
    ensures c < 256 && Used(bitmap, c) && Slot(bitmap, c) == slot
    ensures ConstantAt(out, slot, regs, regBase + 4 * c)
  {
    c := SlotsAreFilled(bitmap, 256, slot);
  }
}
