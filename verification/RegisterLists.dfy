/** Saving and restoring lists of floating-point registers, twelve bytes each, in the two
    orders of the addressing modes. */
module RegisterLists {
  import opened Bits
  import opened FloatMoves

  type Bank = r: seq<Register> | |r| == 8 witness seq(8, _ => Register(0, 0, 0))

  /** The three longwords of one register: the significand directly after the exponent. */
  function Packed(v: Register): seq<uint32> {
    [v.e * 0x1_0000 + v.h / 0x1_0000, v.h % 0x1_0000 * 0x1_0000 + v.l / 0x1_0000, v.l % 0x1_0000 * 0x1_0000]
  }

  function Unpacked(w: seq<uint32>): Register
    requires |w| == 3
  {
    Register(w[0] / 0x1_0000, w[0] % 0x1_0000 * 0x1_0000 + w[1] / 0x1_0000,
             w[1] % 0x1_0000 * 0x1_0000 + w[2] / 0x1_0000)
  }

  /** The registers bits `i` to 7 of the mask name, in ascending order of memory: bit i is
      register i with predecrement, register 7 - i otherwise. */
  function Slots(mask: seq<bool>, predec: bool, i: nat): (s: seq<nat>)
    requires |mask| == 8 && i <= 8
    ensures forall k | 0 <= k < |s| :: s[k] < 8 && (if predec then s[k] >= i else s[k] <= 7 - i)
    decreases |mask| - i
  {
    if i == 8 then []
    else (if mask[i] then [if predec then i else 7 - i] else []) + Slots(mask, predec, i + 1)
  }

  function Saved(regs: Bank, slots: seq<nat>): (m: seq<uint32>)
    requires forall k | 0 <= k < |slots| :: slots[k] < 8
    ensures |m| == 3 * |slots|
  {
    if slots == [] then [] else Packed(regs[slots[0]]) + Saved(regs, slots[1..])
  }

  function Restored(regs: Bank, slots: seq<nat>, m: seq<uint32>): Bank
    requires forall k | 0 <= k < |slots| :: slots[k] < 8
    requires |m| == 3 * |slots|
    decreases |slots|
  {
    if slots == [] then regs
    else Restored(regs[slots[0] := Unpacked(m[..3])], slots[1..], m[3..])
  }

  predicate Distinct(s: seq<nat>) {
    forall j, k | 0 <= j < k < |s| :: s[j] != s[k]
  }

  lemma UnpackedPacked(v: Register)
    ensures Unpacked(Packed(v)) == v
  {
  }

  /** Saved from one list and restored to another of the same length, the k-th register of
      the second takes the k-th of the first, and the rest keep their values. */
  lemma {:induction false} RestoredSaved(from: Bank, into: Bank, a: seq<nat>, b: seq<nat>)
    requires |a| == |b| && Distinct(b)
    requires forall k | 0 <= k < |a| :: a[k] < 8 && b[k] < 8
    ensures var t := Restored(into, b, Saved(from, a));
            && (forall k | 0 <= k < |b| :: t[b[k]] == from[a[k]])
            && (forall r | 0 <= r < 8 && r !in b :: t[r] == into[r])
    decreases |a|
  {
    if a != [] {
      var m := Saved(from, a);
      assert m[..3] == Packed(from[a[0]]) && m[3..] == Saved(from, a[1..]);
      UnpackedPacked(from[a[0]]);
      hide Packed, Unpacked;
      var next: Bank := into[b[0] := from[a[0]]];
      RestoredSaved(from, next, a[1..], b[1..]);
      var t := Restored(into, b, m);
      assert t == Restored(next, b[1..], m[3..]);
      assert b[0] !in b[1..];
      forall k | 0 <= k < |b|
        ensures t[b[k]] == from[a[k]]
      {
        if k > 0 {
          assert b[1..][k - 1] == b[k] && a[1..][k - 1] == a[k];
        }
      }
    }
  }

  lemma {:induction false} SlotsDistinct(mask: seq<bool>, predec: bool, i: nat)
    requires |mask| == 8 && i <= 8
    ensures Distinct(Slots(mask, predec, i))
    decreases |mask| - i
  {
    if i < 8 {
      SlotsDistinct(mask, predec, i + 1);
    }
  }

  /** Ascending with predecrement, descending otherwise. */
  predicate InOrder(s: seq<nat>, predec: bool) {
    forall j, k | 0 <= j < k < |s| :: if predec then s[j] < s[k] else s[j] > s[k]
  }

  lemma OrderGrows(x: nat, rest: seq<nat>, predec: bool)
    requires InOrder(rest, predec) && forall k | 0 <= k < |rest| :: if predec then x < rest[k] else x > rest[k]
    ensures InOrder([x] + rest, predec)
  {
  }

  lemma {:induction false} SlotsInOrder(mask: seq<bool>, predec: bool, i: nat)
    requires |mask| == 8 && i <= 8
    ensures InOrder(Slots(mask, predec, i), predec)
    decreases |mask| - i
  {
    if i < 8 {
      SlotsInOrder(mask, predec, i + 1);
      var rest := Slots(mask, predec, i + 1);
      OrderGrows(if predec then i else 7 - i, rest, predec);
      hide InOrder;
      assert [] + rest == rest;
    }
  }

  lemma {:induction false} SlotsName(mask: seq<bool>, predec: bool, i: nat, r: nat)
    requires |mask| == 8 && i <= 8 && r < 8
    ensures r in Slots(mask, predec, i) <==> if predec then r >= i && mask[r] else 7 - r >= i && mask[7 - r]
    decreases |mask| - i
  {
    if i < 8 {
      SlotsName(mask, predec, i + 1, r);
      var head := if mask[i] then [if predec then i else 7 - i] else [];
      assert r in head + Slots(mask, predec, i + 1) <==> r in head || r in Slots(mask, predec, i + 1);
    }
  }

  lemma {:induction false} SavedAt(regs: Bank, slots: seq<nat>, k: nat)
    requires forall j | 0 <= j < |slots| :: slots[j] < 8
    requires k < |slots|
    ensures Saved(regs, slots)[3 * k..3 * k + 3] == Packed(regs[slots[k]])
  {
    if k > 0 {
      SavedAt(regs, slots[1..], k - 1);
      var m := Saved(regs, slots);
      assert m[3..] == Saved(regs, slots[1..]) && m[3 * k..3 * k + 3] == m[3..][3 * (k - 1)..3 * (k - 1) + 3];
    }
  }

  /** Which registers a list move moves and where they lie in memory: bit r of the mask
      names register r with predecrement and they ascend in memory, bit 7 - r names it
      otherwise and they descend; each takes three longwords. */
  lemma ListInMemory(regs: Bank, mask: seq<bool>, predec: bool, k: nat, r: nat)
    requires |mask| == 8 && k < |Slots(mask, predec, 0)| && r < 8
    ensures var s := Slots(mask, predec, 0);
            && (r in s <==> mask[if predec then r else 7 - r]) && InOrder(s, predec)
            && Saved(regs, s)[3 * k..3 * k + 3] == Packed(regs[s[k]])
  {
    hide Packed, Saved, InOrder;
    SlotsName(mask, predec, 0, r);
    SlotsInOrder(mask, predec, 0);
    SavedAt(regs, Slots(mask, predec, 0), k);
  }

  /** The twelve bytes of a register are its exponent word and significand, with sixteen
      zeros after them. */
  lemma PackedValue(v: Register)
    ensures var w := Packed(v);
            w[0] as int * 0x1_0000_0000_0000_0000 + w[1] as int * 0x1_0000_0000 + w[2] as int
            == (v.e as int * 0x1_0000_0000_0000_0000 + v.h as int * 0x1_0000_0000 + v.l as int) * 0x1_0000
  {
  }

  /** A save and a restore in the same mode with the same mask give every named register
      its saved value and leave the others alone. */
  lemma SameModeRoundTrip(from: Bank, into: Bank, mask: seq<bool>, predec: bool)
    requires |mask| == 8
    ensures var s := Slots(mask, predec, 0);
            var t := Restored(into, s, Saved(from, s));
            forall r | 0 <= r < 8 :: t[r] == if r in s then from[r] else into[r]
  {
    var s := Slots(mask, predec, 0);
    SlotsDistinct(mask, predec, 0);
    RestoredSaved(from, into, s, s);
  }

  /** The mask that names the same registers in the other order. */
  function Mirrored(mask: seq<bool>): (m: seq<bool>)
    requires |mask| == 8
    ensures |m| == 8
  {
    seq(8, i requires 0 <= i < 8 => mask[7 - i])
  }

  /** Registers below `n` that a predecrement mask names, ascending. */
  function Below(mask: seq<bool>, n: nat): (s: seq<nat>)
    requires |mask| == 8 && n <= 8
    ensures forall k | 0 <= k < |s| :: s[k] < n
  {
    if n == 0 then [] else Below(mask, n - 1) + if mask[n - 1] then [n - 1] else []
  }

  lemma {:induction false} SlotsAreBelow(mask: seq<bool>, n: nat)
    requires |mask| == 8 && n <= 8
    ensures Below(mask, n) + Slots(mask, true, n) == Slots(mask, true, 0)
  {
    if n == 0 {
      assert Below(mask, 0) + Slots(mask, true, 0) == Slots(mask, true, 0);
    } else {
      SlotsAreBelow(mask, n - 1);
      var here := if mask[n - 1] then [n - 1] else [];
      assert Below(mask, n - 1) + (here + Slots(mask, true, n)) == (Below(mask, n - 1) + here) + Slots(mask, true, n);
    }
  }

  predicate Reversed(a: seq<nat>, b: seq<nat>) {
    |a| == |b| && forall k | 0 <= k < |a| :: a[k] == b[|a| - 1 - k]
  }

  lemma ReversedGrows(a: seq<nat>, b: seq<nat>, x: nat)
    requires Reversed(a, b)
    ensures Reversed([x] + a, b + [x])
  {
  }

  lemma {:induction false} MirrorReverses(mask: seq<bool>, i: nat)
    requires |mask| == 8 && i <= 8
    ensures Reversed(Slots(Mirrored(mask), false, i), Below(mask, 8 - i))
    decreases |mask| - i
  {
    hide Reversed;
    if i < 8 {
      MirrorReverses(mask, i + 1);
      var rest, low := Slots(Mirrored(mask), false, i + 1), Below(mask, 7 - i);
      ReversedGrows(rest, low, 7 - i);
      var a, b := Slots(Mirrored(mask), false, i), Below(mask, 8 - i);
      if mask[7 - i] {
        assert a == [7 - i] + rest && b == low + [7 - i];
      } else {
        assert a == rest && b == low;
      }
    } else {
      NothingReversed();
    }
  }

  lemma NothingReversed()
    ensures Reversed([], [])
  {
  }

  lemma MirroredList(mask: seq<bool>)
    requires |mask| == 8
    ensures var back := Slots(Mirrored(mask), false, 0);
            Distinct(back) && Reversed(back, Slots(mask, true, 0))
  {
    SlotsAreBelow(mask, 8);
    assert Slots(mask, true, 8) == [] && Below(mask, 8) == Slots(mask, true, 0);
    MirrorReverses(mask, 0);
    SlotsDistinct(Mirrored(mask), false, 0);
  }

  lemma ReversedRestore(from: Bank, into: Bank, s: seq<nat>, back: seq<nat>, k: nat)
    requires Distinct(back) && Reversed(back, s) && k < |s|
    requires forall j | 0 <= j < |s| :: s[j] < 8 && back[j] < 8
    ensures Restored(into, back, Saved(from, s))[s[k]] == from[s[|s| - 1 - k]]
  {
    hide Saved, Restored, Distinct;
    RestoredSaved(from, into, s, back);
    assert back[|s| - 1 - k] == s[k];
  }

  /** A predecrement save and a postincrement restore of the same registers put them back
      in reverse: they come back right exactly when the saved values read the same from
      both ends. */
  lemma CrossModeReverses(from: Bank, into: Bank, mask: seq<bool>)
    requires |mask| == 8
    ensures var s := Slots(mask, true, 0);
            var back := Slots(Mirrored(mask), false, 0);
            && |back| == |s|
            && var t := Restored(into, back, Saved(from, s));
               && (forall k | 0 <= k < |s| :: t[s[k]] == from[s[|s| - 1 - k]])
               && ((forall k | 0 <= k < |s| :: t[s[k]] == from[s[k]])
                   <==> (forall k | 0 <= k < |s| :: from[s[k]] == from[s[|s| - 1 - k]]))
  {
    var s, back := Slots(mask, true, 0), Slots(Mirrored(mask), false, 0);
    MirroredList(mask);
    assert |back| == |s|;
    hide Slots, Saved, Restored, Mirrored, Distinct, Reversed;
    var t := Restored(into, back, Saved(from, s));
    forall k | 0 <= k < |s|
      ensures t[s[k]] == from[s[|s| - 1 - k]]
    {
      ReversedRestore(from, into, s, back, k);
    }
    PalindromeIff(from, t, s);
  }

  lemma PalindromeIff(from: Bank, t: Bank, s: seq<nat>)
    requires forall k | 0 <= k < |s| :: s[k] < 8
    requires forall k | 0 <= k < |s| :: t[s[k]] == from[s[|s| - 1 - k]]
    ensures (forall k | 0 <= k < |s| :: t[s[k]] == from[s[k]])
       <==> (forall k | 0 <= k < |s| :: from[s[k]] == from[s[|s| - 1 - k]])
  {
    if forall k | 0 <= k < |s| :: t[s[k]] == from[s[k]] {
      forall k | 0 <= k < |s|
        ensures from[s[k]] == from[s[|s| - 1 - k]]
      {
        assert t[s[k]] == from[s[k]];
      }
    }
    if forall k | 0 <= k < |s| :: from[s[k]] == from[s[|s| - 1 - k]] {
      forall k | 0 <= k < |s|
        ensures t[s[k]] == from[s[k]]
      {
        assert from[s[k]] == from[s[|s| - 1 - k]];
      }
    }
  }

  /** The extended operand of a single move has padding between exponent and significand,
      so a register list read back register by register that way comes back unchanged only
      if the significand is zero. */
  function LoadExtended(w: seq<uint32>): Register
    requires |w| == 3
  {
    Register(w[0] / 0x1_0000, w[1], w[2])
  }

  lemma LayoutsAgreeIff(v: Register)
    ensures LoadExtended(Packed(v)) == v <==> v.h == 0 && v.l == 0
  {
    var (a, b) := (v.l / 0x1_0000, v.l % 0x1_0000);
    assert v.l == a * 0x1_0000 + b;
  }

  lemma SlotsStep(mask: seq<bool>, predec: bool, i: nat)
    requires |mask| == 8 && i < 8
    ensures var s, rest := Slots(mask, predec, i), Slots(mask, predec, i + 1);
            if mask[i] then |s| == |rest| + 1 && s[0] == (if predec then i else 7 - i) && s[1..] == rest else s == rest
  {
  }

  class Unit {
    var regs: Bank

    constructor ()
      ensures regs == seq(8, _ => Register(0, 0, 0))
    {
      regs := seq(8, _ => Register(0, 0, 0));
    }

    method Save(mask: seq<bool>, predec: bool) returns (memory: seq<uint32>)
      requires |mask| == 8
      ensures memory == Saved(regs, Slots(mask, predec, 0))
    {
      memory := [];
      for i := 0 to 8
        invariant memory + Saved(regs, Slots(mask, predec, i)) == Saved(regs, Slots(mask, predec, 0))
      {
        var reg := if predec then i else 7 - i;
        SlotsStep(mask, predec, i);
        hide Slots, Packed;
        if mask[i] {
          ghost var rest := Saved(regs, Slots(mask, predec, i + 1));
          assert memory + (Packed(regs[reg]) + rest) == (memory + Packed(regs[reg])) + rest;
          memory := memory + Packed(regs[reg]);
        }
      }
    }

    method Restore(mask: seq<bool>, predec: bool, memory: seq<uint32>)
      requires |mask| == 8 && |memory| == 3 * |Slots(mask, predec, 0)|
      modifies this`regs
      ensures regs == Restored(old(regs), Slots(mask, predec, 0), memory)
    {
      var at := 0;
      for i := 0 to 8
        invariant at + 3 * |Slots(mask, predec, i)| == |memory| && at >= 0
        invariant Restored(regs, Slots(mask, predec, i), memory[at..]) ==
                  Restored(old(regs), Slots(mask, predec, 0), memory)
      {
        var reg := if predec then i else 7 - i;
        SlotsStep(mask, predec, i);
        ghost var slots := Slots(mask, predec, i);
        assert mask[i] ==> slots != [] && 3 * |slots| == |memory[at..]|;
        hide Slots, Unpacked;
        if mask[i] {
          assert memory[at..][..3] == memory[at..at + 3] && memory[at..][3..] == memory[at + 3..];
          regs := regs[reg := Unpacked(memory[at..at + 3])];
          at := at + 3;
        }
      }
    }
  }
}
