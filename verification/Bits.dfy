/** Powers of two, n-bit bitwise operators, and left-aligned masks. */
module Bits {

  function Pow2(n: nat): (r: nat)
    ensures r >= 1
  {
    if n == 0 then 1 else 2 * Pow2(n - 1)
  }

  lemma Scales(d: int, m: int)
    requires d >= 1 && m >= 1
    ensures d * m >= m
  {
  }

  /** The quotient and remainder of a division are unique. */
  lemma DivModUnique(a: int, q: int, m: int, r: int)
    requires 0 <= r < m
    requires a == q * m + r
    ensures a / m == q && a % m == r
  {
    var q', r' := a / m, a % m;
    assert (q - q') * m == r' - r;
    if q > q' {
      Scales(q - q', m);
    } else if q < q' {
      Scales(q' - q, m);
    }
  }

  lemma {:induction false} Pow2Add(a: nat, b: nat)
    ensures Pow2(a + b) == Pow2(a) * Pow2(b)
  {
    if a > 0 {
      Pow2Add(a - 1, b);
      assert Pow2(a + b) == 2 * Pow2(a - 1 + b);
      assert 2 * (Pow2(a - 1) * Pow2(b)) == (2 * Pow2(a - 1)) * Pow2(b);
    }
  }

  lemma {:induction false} Pow2Monotone(a: nat, b: nat)
    requires a <= b
    ensures Pow2(a) <= Pow2(b)
    decreases b
  {
    if a < b {
      Pow2Monotone(a, b - 1);
    }
  }

  /** Bitwise AND of the low n bits. */
  function And(n: nat, x: nat, y: nat): (r: nat)
    ensures r < Pow2(n)
  {
    if n == 0 then 0 else 2 * And(n - 1, x / 2, y / 2) + (if x % 2 == 1 && y % 2 == 1 then 1 else 0)
  }

  /** Bitwise OR of the low n bits. */
  function Or(n: nat, x: nat, y: nat): (r: nat)
    ensures r < Pow2(n)
  {
    if n == 0 then 0 else 2 * Or(n - 1, x / 2, y / 2) + (if x % 2 == 1 || y % 2 == 1 then 1 else 0)
  }

  /** Bitwise complement of the low n bits. */
  function Not(n: nat, x: nat): (r: nat)
    ensures r < Pow2(n)
  {
    if n == 0 then 0 else 2 * Not(n - 1, x / 2) + (1 - x % 2)
  }

  /** The n-bit word whose leading k bits are one. */
  function Mask(n: nat, k: nat): (r: nat)
    requires k <= n
    ensures r < Pow2(n)
  {
    Pow2Monotone(n - k, n);
    Pow2(n) - Pow2(n - k)
  }

  /** Dropping the last bit of a mask drops its last one, or its last zero. */
  lemma MaskHalf(n: nat, k: nat)
    requires k <= n && 0 < n
    ensures k < n ==> Mask(n, k) % 2 == 0 && Mask(n, k) / 2 == Mask(n - 1, k)
    ensures k == n ==> Mask(n, k) % 2 == 1 && Mask(n, k) / 2 == Mask(n - 1, n - 1)
  {
  }

  /** Halving commutes with taking remainders by an even power of two. */
  lemma HalfMod(x: nat, h: nat)
    requires h >= 1
    ensures x % (2 * h) == 2 * ((x / 2) % h) + x % 2
  {
    var q, r := (x / 2) / h, (x / 2) % h;
    assert x == 2 * (q * h + r) + x % 2;
    assert q * (2 * h) == 2 * (q * h);
    DivModUnique(x, q, 2 * h, 2 * r + x % 2);
  }

  /** AND with a left-aligned mask clears the host bits. */
  lemma {:induction false} AndMask(n: nat, x: nat, k: nat)
    requires k <= n && x < Pow2(n)
    ensures And(n, x, Mask(n, k)) == x - x % Pow2(n - k)
  {
    if n > 0 {
      MaskHalf(n, k);
      if k < n {
        AndMask(n - 1, x / 2, k);
        HalfMod(x, Pow2(n - 1 - k));
      } else {
        AndMask(n - 1, x / 2, n - 1);
      }
    }
  }

  /** OR with the complement of a left-aligned mask sets the host bits. */
  lemma {:induction false} OrNotMask(n: nat, x: nat, k: nat)
    requires k <= n && x < Pow2(n)
    ensures Or(n, x, Not(n, Mask(n, k))) == x - x % Pow2(n - k) + Pow2(n - k) - 1
  {
    if n > 0 {
      MaskHalf(n, k);
      var m := Not(n, Mask(n, k));
      if k < n {
        assert m % 2 == 1 && m / 2 == Not(n - 1, Mask(n - 1, k));
        OrNotMask(n - 1, x / 2, k);
        HalfMod(x, Pow2(n - 1 - k));
      } else {
        assert m % 2 == 0 && m / 2 == Not(n - 1, Mask(n - 1, n - 1));
        OrNotMask(n - 1, x / 2, n - 1);
      }
    }
  }

  /** A word of n + w bits whose high part is x and whose low w bits are l. */
  function Join(w: nat, x: nat, l: nat): nat {
    if w == 0 then x else 2 * Join(w - 1, x, l / 2) + l % 2
  }

  /** The bitwise operators act on the high and low parts of a word separately. */
  lemma {:induction false} AndConcat(n: nat, w: nat, x: nat, l: nat, y: nat, m: nat)
    ensures And(n + w, Join(w, x, l), Join(w, y, m)) == Join(w, And(n, x, y), And(w, l, m))
    decreases w
  {
    if w > 0 {
      var jx, jy := Join(w, x, l), Join(w, y, m);
      assert jx / 2 == Join(w - 1, x, l / 2) && jx % 2 == l % 2;
      assert jy / 2 == Join(w - 1, y, m / 2) && jy % 2 == m % 2;
      AndConcat(n, w - 1, x, l / 2, y, m / 2);
      var r := And(w, l, m);
      assert r / 2 == And(w - 1, l / 2, m / 2);
      assert Join(w, And(n, x, y), r) == 2 * Join(w - 1, And(n, x, y), r / 2) + r % 2;
    }
  }

  lemma {:induction false} OrConcat(n: nat, w: nat, x: nat, l: nat, y: nat, m: nat)
    ensures Or(n + w, Join(w, x, l), Join(w, y, m)) == Join(w, Or(n, x, y), Or(w, l, m))
    decreases w
  {
    if w > 0 {
      var jx, jy := Join(w, x, l), Join(w, y, m);
      assert jx / 2 == Join(w - 1, x, l / 2) && jx % 2 == l % 2;
      assert jy / 2 == Join(w - 1, y, m / 2) && jy % 2 == m % 2;
      OrConcat(n, w - 1, x, l / 2, y, m / 2);
      var r := Or(w, l, m);
      assert r / 2 == Or(w - 1, l / 2, m / 2);
      assert Join(w, Or(n, x, y), r) == 2 * Join(w - 1, Or(n, x, y), r / 2) + r % 2;
    }
  }

  lemma {:induction false} NotConcat(n: nat, w: nat, x: nat, l: nat)
    ensures Not(n + w, Join(w, x, l)) == Join(w, Not(n, x), Not(w, l))
    decreases w
  {
    if w > 0 {
      var jx := Join(w, x, l);
      assert jx / 2 == Join(w - 1, x, l / 2) && jx % 2 == l % 2;
      NotConcat(n, w - 1, x, l / 2);
      var r := Not(w, l);
      assert r / 2 == Not(w - 1, l / 2);
    }
  }

  lemma {:induction false} JoinIsShift(w: nat, x: nat, l: nat)
    requires l < Pow2(w)
    ensures Join(w, x, l) == x * Pow2(w) + l
  {
    if w > 0 {
      JoinIsShift(w - 1, x, l / 2);
      assert x * Pow2(w) == 2 * (x * Pow2(w - 1));
    }
  }

  lemma Distributes(a: int, b: int, c: int)
    ensures (a - b) * c == a * c - b * c
  {
  }

  /** A mask splits into the masks of its high and low parts. */
  lemma MaskConcat(n: nat, w: nat, k: nat)
    requires k <= n + w
    ensures Mask(n + w, k) == Mask(n, if k <= n then k else n) * Pow2(w) + Mask(w, if k <= n then 0 else k - n)
  {
    Pow2Add(n, w);
    if k <= n {
      Pow2Add(n - k, w);
      Distributes(Pow2(n), Pow2(n - k), Pow2(w));
    } else {
      Distributes(Pow2(n), 1, Pow2(w));
    }
  }
}
