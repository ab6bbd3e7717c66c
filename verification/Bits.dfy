// The bit arithmetic of the allocators, on naturals: bitwise operators by their
// bits, and what they come to on powers of two.
module Bits {

  // The values of std::size_t and std::uintptr_t lie below WORD.
  const WORD: nat := 0x1_0000_0000_0000_0000

  function Pow2(n: nat): (r: nat)
    ensures r > 0
  {
    if n == 0 then 1 else 2 * Pow2(n - 1)
  }

  function And(a: nat, b: nat): nat {
    if a == 0 || b == 0 then 0
    else 2 * And(a / 2, b / 2) + if a % 2 == 1 && b % 2 == 1 then 1 else 0
  }

  function Or(a: nat, b: nat): nat {
    if a == 0 then b else if b == 0 then a
    else 2 * Or(a / 2, b / 2) + if a % 2 == 1 || b % 2 == 1 then 1 else 0
  }

  function Xor(a: nat, b: nat): nat {
    if a == 0 then b else if b == 0 then a
    else 2 * Xor(a / 2, b / 2) + if a % 2 != b % 2 then 1 else 0
  }

  predicate Bit(a: nat, i: nat) {
    if i == 0 then a % 2 == 1 else Bit(a / 2, i - 1)
  }

  // The bits that flip under ~ in a word of w bits.
  function Not(w: nat, a: nat): nat
    requires a < Pow2(w)
  {
    Pow2(w) - 1 - a
  }

  // std::bit_ceil: the least power of two that is not below n.
  function BitCeil(n: nat): (r: nat)
    ensures n <= r && 0 < r
  {
    if n <= 1 then 1 else 2 * BitCeil((n + 1) / 2)
  }

  // std::countr_zero
  function CountrZero(n: nat): nat
    requires n > 0
  {
    if n % 2 == 1 then 0 else 1 + CountrZero(n / 2)
  }

  // ----- powers of two

  lemma {:induction false} Pow2Add(a: nat, b: nat)
    ensures Pow2(a + b) == Pow2(a) * Pow2(b)
  {
    if a > 0 {
      Pow2Add(a - 1, b);
    }
  }

  lemma {:induction false} Pow2Mono(a: nat, b: nat)
    requires a <= b
    ensures Pow2(a) <= Pow2(b)
    ensures a < b ==> 2 * Pow2(a) <= Pow2(b)
  {
    if a < b {
      Pow2Mono(a, b - 1);
    }
  }

  lemma {:induction false} Pow2Above(n: nat)
    ensures n < Pow2(n)
  {
    if n > 0 {
      Pow2Above(n - 1);
    }
  }

  lemma {:induction false} CountrZeroPow2(k: nat)
    ensures CountrZero(Pow2(k)) == k
  {
    if k > 0 {
      CountrZeroPow2(k - 1);
    }
  }

  // BitCeil is a power of two, and none below it will do.
  lemma {:induction false} BitCeilLeast(n: nat) returns (k: nat)
    ensures BitCeil(n) == Pow2(k) && n <= Pow2(k)
    ensures forall j: nat :: n <= Pow2(j) ==> k <= j
  {
    if n <= 1 {
      k := 0;
    } else {
      var k' := BitCeilLeast((n + 1) / 2);
      k := k' + 1;
      forall j: nat | n <= Pow2(j)
        ensures k <= j
      {
        if j > 0 {
          assert (n + 1) / 2 <= Pow2(j - 1);
        }
      }
    }
  }

  // ----- single bits

  lemma {:induction false} BitZero(i: nat)
    ensures !Bit(0, i)
  {
    if i > 0 {
      BitZero(i - 1);
    }
  }

  // Flipping bit k adds or takes away 2^k.
  lemma {:induction false} XorPow2(a: nat, k: nat)
    ensures Bit(a, k) ==> a >= Pow2(k) && Xor(a, Pow2(k)) == a - Pow2(k)
    ensures !Bit(a, k) ==> Xor(a, Pow2(k)) == a + Pow2(k)
  {
    if a == 0 {
      BitZero(k);
    } else if k > 0 {
      XorPow2(a / 2, k - 1);
      assert Pow2(k) / 2 == Pow2(k - 1) && Pow2(k) % 2 == 0;
    } else {
      assert Xor(a, 1) == 2 * Xor(a / 2, 0) + if a % 2 != 1 then 1 else 0;
      assert Xor(a / 2, 0) == a / 2;
    }
  }

  // Setting and clearing bit k touches no other bit.
  lemma {:induction false} OrPow2(a: nat, k: nat, i: nat)
    ensures Bit(Or(a, Pow2(k)), i) == (i == k || Bit(a, i))
  {
    if a == 0 {
      BitZero(i);
      BitPow2(k, i);
    } else if k == 0 {
      assert Or(a, 1) == 2 * (a / 2) + 1;
      assert i > 0 ==> Or(a, 1) / 2 == a / 2;
    } else {
      var b := Or(a, Pow2(k));
      assert b == 2 * Or(a / 2, Pow2(k - 1)) + a % 2;
      if i > 0 {
        OrPow2(a / 2, k - 1, i - 1);
      }
    }
  }

  lemma {:induction false} BitPow2(k: nat, i: nat)
    ensures Bit(Pow2(k), i) == (i == k)
  {
    if i > 0 && k > 0 {
      BitPow2(k - 1, i - 1);
    } else if i > 0 {
      BitZero(i - 1);
    }
  }

  lemma {:induction false} BitAnd(a: nat, b: nat, i: nat)
    ensures Bit(And(a, b), i) == (Bit(a, i) && Bit(b, i))
  {
    if a == 0 || b == 0 {
      BitZero(i);
    } else if i > 0 {
      BitAnd(a / 2, b / 2, i - 1);
      assert And(a, b) / 2 == And(a / 2, b / 2);
    }
  }

  lemma {:induction false} BitNot(w: nat, a: nat, i: nat)
    requires a < Pow2(w) && i < w
    ensures Bit(Not(w, a), i) == !Bit(a, i)
  {
    if i > 0 {
      BitNot(w - 1, a / 2, i - 1);
      assert Not(w, a) / 2 == Not(w - 1, a / 2);
    }
  }

  lemma {:induction false} BitsBelow(w: nat, a: nat, i: nat)
    requires a < Pow2(w) && w <= i
    ensures !Bit(a, i)
  {
    if w == 0 {
      BitZero(i);
    } else {
      BitsBelow(w - 1, a / 2, i - 1);
    }
  }

  lemma {:induction false} AndBelow(a: nat, b: nat)
    ensures And(a, b) <= a && And(a, b) <= b
  {
    if a > 0 && b > 0 {
      AndBelow(a / 2, b / 2);
    }
  }

  lemma {:induction false} OrBelow(w: nat, a: nat, b: nat)
    requires a < Pow2(w) && b < Pow2(w)
    ensures Or(a, b) < Pow2(w)
  {
    if a > 0 && b > 0 {
      OrBelow(w - 1, a / 2, b / 2);
    }
  }

  // The trailing zeros end at the lowest bit that is set.
  lemma {:induction false} LowestBit(a: nat)
    requires a > 0
    ensures Bit(a, CountrZero(a))
    ensures forall j: nat :: j < CountrZero(a) ==> !Bit(a, j)
  {
    if a % 2 == 0 {
      LowestBit(a / 2);
      forall j: nat | j < CountrZero(a)
        ensures !Bit(a, j)
      {
        if j > 0 {
          assert !Bit(a / 2, j - 1);
        }
      }
    }
  }

  // ----- masks

  // ~0 << k in a word of w bits.
  function HighMask(w: nat, k: nat): nat
    requires k <= w
  {
    Pow2Mono(k, w);
    Pow2(w) - Pow2(k)
  }

  lemma {:induction false} BitHighMask(w: nat, k: nat, i: nat)
    requires k <= w
    ensures Bit(HighMask(w, k), i) == (k <= i < w)
  {
    if w == 0 {
      BitZero(i);
    } else if k == 0 {
      if i > 0 {
        BitHighMask(w - 1, 0, i - 1);
        assert HighMask(w, 0) / 2 == HighMask(w - 1, 0);
      }
    } else if i > 0 {
      BitHighMask(w - 1, k - 1, i - 1);
      assert HighMask(w, k) / 2 == HighMask(w - 1, k - 1);
    }
  }

  // a with its k lowest bits cleared.
  function Floor(a: nat, k: nat): nat {
    if k == 0 then a else 2 * Floor(a / 2, k - 1)
  }

  lemma {:induction false} FloorMod(a: nat, k: nat)
    ensures Floor(a, k) == a - a % Pow2(k)
  {
    if k > 0 {
      FloorMod(a / 2, k - 1);
      HalfMod(a, Pow2(k - 1));
    }
  }

  lemma {:induction false} FloorZero(k: nat)
    ensures Floor(0, k) == 0
  {
    if k > 0 {
      FloorZero(k - 1);
    }
  }

  lemma {:induction false} FloorBelow(a: nat, k: nat)
    requires a < Pow2(k)
    ensures Floor(a, k) == 0
  {
    if k > 0 {
      FloorBelow(a / 2, k - 1);
    }
  }

  lemma {:induction false} AndLowMask(a: nat, k: nat)
    ensures And(a, Pow2(k) - 1) == a - Floor(a, k)
  {
    if a == 0 {
      FloorZero(k);
    } else if k > 0 {
      AndLowMask(a / 2, k - 1);
      assert (Pow2(k) - 1) / 2 == Pow2(k - 1) - 1 && (Pow2(k) - 1) % 2 == 1;
    }
  }

  lemma {:induction false} AndHighMask(w: nat, a: nat, k: nat)
    requires k <= w && a < Pow2(w)
    ensures And(a, HighMask(w, k)) == Floor(a, k)
  {
    if a == 0 {
      FloorZero(k);
    } else if w == k {
      FloorBelow(a, k);
    } else if k == 0 {
      AndHighMask(w - 1, a / 2, 0);
      assert HighMask(w, 0) / 2 == HighMask(w - 1, 0) && HighMask(w, 0) % 2 == 1;
    } else {
      AndHighMask(w - 1, a / 2, k - 1);
      assert HighMask(w, k) / 2 == HighMask(w - 1, k - 1) && HighMask(w, k) % 2 == 0;
    }
  }

  lemma HalfMod(a: nat, p: nat)
    requires p > 0
    ensures a % (2 * p) == 2 * (a / 2 % p) + a % 2
  {
    var q, r := a / 2 / p, a / 2 % p;
    assert a / 2 == q * p + r;
    assert a == q * (2 * p) + (2 * r + a % 2);
    ModIs(a, 2 * p, q, 2 * r + a % 2);
  }

  lemma ModIs(a: nat, d: nat, q: int, r: nat)
    requires r < d && a == q * d + r
    ensures a % d == r && a / d == q
  {
    assert a == (a / d) * d + a % d;
    assert (a / d - q) * d == r - a % d;
    NoMultipleBetween(a / d - q, d);
  }

  lemma NoMultipleBetween(e: int, d: int)
    requires -d < e * d < d
    ensures e == 0
  {
  }

  lemma ModAdd(a: nat, b: nat, d: nat)
    requires d > 0 && a % d == 0 && b % d == 0
    ensures (a + b) % d == 0
  {
    assert (a / d + b / d) * d == (a / d) * d + (b / d) * d;
    ModIs(a + b, d, a / d + b / d, 0);
  }

  lemma ModSub(a: nat, b: nat, d: nat)
    requires d > 0 && a % d == 0 && b % d == 0 && b <= a
    ensures (a - b) % d == 0
    ensures b < a ==> b + d <= a
  {
    assert (a / d - b / d) * d == (a / d) * d - (b / d) * d;
    ModIs(a - b, d, a / d - b / d, 0);
    if b < a {
      GapMultiple(a / d - b / d, d);
    }
  }

  lemma GapMultiple(q: int, d: nat)
    requires q * d > 0
    ensures q * d >= d
  {
  }

  lemma SmallPowers()
    ensures Pow2(1) == 2 && Pow2(5) == 32 && Pow2(7) == 128 && Pow2(8) == 256
  {
    assert Pow2(4) == 16;
  }

  lemma Pow2Step(k: nat)
    ensures Pow2(k + 1) == 2 * Pow2(k)
  {
  }

  lemma Pow2Order(a: nat, b: nat)
    ensures Pow2(a) < Pow2(b) <==> a < b
  {
    if a < b {
      Pow2Mono(a, b);
    } else {
      Pow2Mono(b, a);
    }
  }

  lemma {:induction false} Pow2Multiple(k: nat, j: nat)
    requires j <= k
    ensures Pow2(k) % Pow2(j) == 0
  {
    if j == k {
      ModIs(Pow2(k), Pow2(j), 1, 0);
    } else {
      Pow2Multiple(k - 1, j);
      ModAdd(Pow2(k - 1), Pow2(k - 1), Pow2(j));
    }
  }

  // ----- alignment

  // utils::align_up, wrapping around like std::size_t.
  function AlignUp(size: nat, align: nat): nat
    requires 0 < align <= WORD
  {
    WordIsPow2();
    And((size + (align - 1)) % WORD, Not(64, align - 1))
  }

  // utils::calc_pad
  function CalcPad(ptr: nat, align: nat): nat
    requires align > 0
  {
    AndBelow(ptr, align - 1);
    And(align - And(ptr, align - 1), align - 1)
  }

  lemma WordIsPow2()
    ensures WORD == Pow2(64)
  {
    assert Pow2(4) == 16;
    Pow2Add(4, 4);
    Pow2Add(8, 8);
    Pow2Add(16, 16);
    Pow2Add(32, 32);
  }

  lemma SmallMod(a: nat, d: nat)
    requires a < d
    ensures a % d == a
  {
  }

  lemma AlignUpFloor(size: nat, k: nat)
    requires k <= 64 && size + Pow2(k) - 1 < WORD
    ensures Pow2(k) <= WORD && AlignUp(size, Pow2(k)) == Floor(size + (Pow2(k) - 1), k)
  {
    hide And, Floor, Pow2;
    WordIsPow2();
    Pow2Mono(k, 64);
    SmallMod(size + (Pow2(k) - 1), WORD);
    assert Not(64, Pow2(k) - 1) == HighMask(64, k);
    AndHighMask(64, size + (Pow2(k) - 1), k);
  }

  lemma FloorUp(a: nat, k: nat, r: nat)
    requires r == Floor(a, k)
    ensures r % Pow2(k) == 0 && r <= a < r + Pow2(k)
  {
    FloorMod(a, k);
    SubMod(a, Pow2(k));
    ModBound(a, Pow2(k));
  }

  // Without wrap-around, the least multiple that is not below size.
  lemma AlignUpSpec(size: nat, k: nat)
    requires k <= 64 && size + Pow2(k) - 1 < WORD
    ensures Pow2(k) <= WORD
    ensures var r := AlignUp(size, Pow2(k)); size <= r < size + Pow2(k) && r % Pow2(k) == 0
  {
    hide AlignUp, Floor, Pow2;
    AlignUpFloor(size, k);
    FloorUp(size + (Pow2(k) - 1), k, AlignUp(size, Pow2(k)));
  }

  // At the end of the address space the sum wraps around, and nothing is left.
  lemma AlignUpWraps(size: nat, k: nat)
    requires k <= 64 && size < WORD <= size + (Pow2(k) - 1)
    ensures Pow2(k) <= WORD && AlignUp(size, Pow2(k)) == 0
  {
    hide And, Floor, Pow2;
    WordIsPow2();
    Pow2Mono(k, 64);
    var r := size + (Pow2(k) - 1) - WORD;
    ModIs(size + (Pow2(k) - 1), WORD, 1, r);
    assert Not(64, Pow2(k) - 1) == HighMask(64, k);
    AndHighMask(64, r, k);
    FloorBelow(r, k);
  }

  lemma ModBound(a: nat, d: nat)
    requires d > 0
    ensures 0 <= a % d < d
  {
  }

  lemma SubMod(a: nat, d: nat)
    requires d > 0
    ensures (a - a % d) % d == 0
  {
    assert a == (a / d) * d + a % d;
    ModIs((a / d) * d, d, a / d, 0);
  }

  lemma CalcPadSpec(ptr: nat, k: nat)
    ensures var r := CalcPad(ptr, Pow2(k)); r < Pow2(k) && (ptr + r) % Pow2(k) == 0
  {
    hide And, Floor, Pow2;
    var d := Pow2(k);
    AndLowMask(ptr, k);
    FloorMod(ptr, k);
    ModBound(ptr, d);
    AndLowMask(d - ptr % d, k);
    FloorMod(d - ptr % d, k);
    AddPad(ptr, d);
  }

  lemma AddPad(ptr: nat, d: nat)
    requires d > 0
    ensures var r := (d - ptr % d) % d; 0 <= r < d && (ptr + r) % d == 0
  {
    assert ptr == (ptr / d) * d + ptr % d;
    if ptr % d == 0 {
      ModIs(d, d, 1, 0);
    } else {
      ModIs(d - ptr % d, d, 0, d - ptr % d);
      assert (ptr / d + 1) * d == (ptr / d) * d + d;
      ModIs(ptr + (d - ptr % d), d, ptr / d + 1, 0);
    }
  }

  // ----- the test for powers of two

  function Log2(n: nat): nat {
    if n <= 1 then 0 else 1 + Log2(n / 2)
  }

  predicate IsPow2(a: nat) {
    a > 0 && And(a, a - 1) == 0
  }

  lemma BelowPow2(a: nat)
    requires a > 1
    ensures And(a, a - 1) == 2 * if a % 2 == 0 then And(a / 2, a / 2 - 1) else And(a / 2, a / 2)
    ensures Pow2(Log2(a)) == 2 * Pow2(Log2(a / 2))
  {
    if a % 2 == 0 {
      assert (a - 1) / 2 == a / 2 - 1 && (a - 1) % 2 == 1;
    } else {
      assert (a - 1) / 2 == a / 2;
    }
  }

  // n & (n - 1) is zero on powers of two, and nowhere else but at 0.
  lemma {:induction false} IsPow2Log2(a: nat)
    requires a > 0
    ensures IsPow2(a) == (a == Pow2(Log2(a)))
  {
    if a > 1 {
      BelowPow2(a);
      AndSelf(a / 2);
      IsPow2Log2(a / 2);
    }
  }

  lemma {:induction false} PowerIsPow2(k: nat)
    ensures Log2(Pow2(k)) == k && IsPow2(Pow2(k))
  {
    if k > 0 {
      PowerIsPow2(k - 1);
    }
    IsPow2Log2(Pow2(k));
  }

  lemma {:induction false} AndSelf(a: nat)
    ensures And(a, a) == a
  {
    if a > 0 {
      AndSelf(a / 2);
    }
  }

  // ----- whole pages

  lemma MultipleMono(a: nat, k: nat, j: nat)
    requires j <= k && a % Pow2(k) == 0
    ensures a % Pow2(j) == 0
  {
    if j < k {
      var p := Pow2(k - 1);
      assert a == (a / (2 * p)) * (2 * p);
      TwiceAsMany(a, p, a / (2 * p));
      MultipleMono(a, k - 1, j);
    }
  }

  lemma TwiceAsMany(a: nat, p: nat, q: nat)
    requires p > 0 && a == q * (2 * p)
    ensures a % p == 0
  {
    assert a == (2 * q) * p;
    ModIs(a, p, 2 * q, 0);
  }

  lemma AtLeastOne(a: nat, d: nat)
    requires 0 < a && d > 0 && a % d == 0
    ensures a >= d
  {
  }

  // Pages are aligned for machine words, and a heap has at least one.
  lemma PageMultiple(start: nat, size: nat, pageSize: nat)
    requires 0 < size && IsPow2(pageSize) && 8 <= pageSize && size + pageSize <= WORD / 4 && start % pageSize == 0
    ensures pageSize <= WORD && start % 8 == 0
    ensures var total := AlignUp(size, pageSize); size <= total < size + pageSize && pageSize <= total && total % pageSize == 0 && total % 8 == 0
  {
    hide AlignUp, And, Log2;
    IsPow2Log2(pageSize);
    var k := Log2(pageSize);
    assert Pow2(3) == 8;
    hide Pow2;
    WordIsPow2();
    if k < 3 {
      Pow2Mono(k, 3);
    }
    if k > 64 {
      Pow2Mono(64, k);
    }
    AlignUpSpec(size, k);
    AtLeastOne(AlignUp(size, pageSize), pageSize);
    MultipleMono(start, k, 3);
    MultipleMono(AlignUp(size, pageSize), k, 3);
  }
}
