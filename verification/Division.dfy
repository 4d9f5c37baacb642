/** Division of natural numbers by a variable. */
module Division {

  lemma TimesAtLeast(d: int, t: nat)
    ensures d >= 1 ==> d * t >= t
    ensures d <= -1 ==> d * t <= 0 - t
  {}

  lemma DivMod(x: nat, t: nat)
    requires t > 0
    ensures x == (x / t) * t + x % t && x % t < t
  {}

  lemma DivUnique(x: nat, t: nat, q: nat, r: nat)
    requires t > 0 && x == q * t + r && r < t
    ensures x / t == q && x % t == r
  {
    var p := x / t;
    DivMod(x, t);
    TimesAtLeast(p - q, t);
    assert (p - q) * t == p * t - q * t;
  }

  lemma Regroup(q: nat, k: nat, u: nat, t: nat)
    ensures (q * k + u) * t == q * (k * t) + u * t
  {}

  lemma DivBelow(r: nat, k: nat, t: nat)
    requires t > 0 && r < k * t
    ensures r / t < k
  {
    var u := r / t;
    DivMod(r, t);
    TimesAtLeast(u - k + 1, t);
    assert (u - k + 1) * t == u * t - k * t + t;
  }

  /** Dividing by `t` through dividing by its multiple `s` first. */
  lemma DivSplit(x: nat, s: nat, t: nat, k: nat)
    requires t > 0 && k > 0 && s == k * t && s > 0
    ensures x / t == (x / s) * k + (x % s) / t && (x % s) % t == x % t && (x % s) / t < k
  {
    DivMod(x, s);
    DivSplitRest(x, s, t, k, x / s, x % s);
  }

  lemma DivSplitRest(x: nat, s: nat, t: nat, k: nat, q: nat, r: nat)
    requires t > 0 && k > 0 && s == k * t && x == q * s + r && r < s
    ensures x / t == q * k + r / t && r % t == x % t && r / t < k
  {
    var u, v := r / t, r % t;
    DivMod(r, t);
    DivBelow(r, k, t);
    DivSplitAt(x, s, t, k, q, u, v);
  }

  lemma DivSplitAt(x: nat, s: nat, t: nat, k: nat, q: nat, u: nat, v: nat)
    requires t > 0 && s == k * t && x == q * s + (u * t + v) && v < t
    ensures x / t == q * k + u && x % t == v
  {
    Regroup(q, k, u, t);
    DivUnique(x, t, q * k + u, v);
  }

  /** A block of size `t` at `o` lies inside one block of the multiple `s` of its size. */
  lemma BlockInside(s: nat, t: nat, k: nat, o: nat, x: nat)
    requires t > 0 && k > 0 && s == k * t && s > 0 && o % t == 0
    ensures (o % s) % t == 0 && o % s + t <= s
    ensures o <= x < o + t <==> x / s == o / s && o % s <= x % s < o % s + t
    ensures o <= x < o + t ==> x % s - o % s == x - o
  {
    AlignedMod(o, t, s, k, 0);
    DivMod(o, s);
    DivMod(x, s);
    InsideAt(s, t, o, x, o / s, o % s);
  }

  lemma InsideAt(s: nat, t: nat, o: nat, x: nat, q: nat, r: nat)
    requires s > 0 && o == q * s + r && r + t <= s
    ensures o <= x < o + t <==> x / s == q && r <= x % s < r + t
    ensures o <= x < o + t ==> x % s - r == x - o
  {
    DivMod(x, s);
    if o <= x < o + t {
      DivUnique(x, s, q, r + (x - o));
    }
  }

  /** An aligned block does not go round the end of a space. */
  lemma AlignedMod(y: nat, size: nat, space: nat, k: nat, d: nat)
    requires size > 0 && k > 0 && space == k * size && space > 0 && y % size == 0 && d < size
    ensures (y % space) % size == 0 && y % space + size <= space && (y + d) % space == y % space + d
  {
    var r := y % space;
    DivSplit(y, space, size, k);
    DivMod(r, size);
    TimesAtLeast(k - r / size, size);
    assert (k - r / size) * size == k * size - (r / size) * size;
    DivMod(y, space);
    DivUnique(y + d, space, y / space, r + d);
  }

  lemma AddMultiple(y: nat, t: nat, k: nat)
    requires t > 0 && y % t == 0
    ensures (y + k * t) % t == 0
  {
    DivMod(y, t);
    Regroup(1, y / t, k, t);
    DivUnique(y + k * t, t, y / t + k, 0);
  }
}

/** Powers of two. */
module Powers {
  function Pow2(k: nat): (r: nat)
    ensures r > 0
  {
    if k == 0 then 1 else 2 * Pow2(k - 1)
  }

  lemma {:induction false} Pow2Monotone(j: nat, k: nat)
    ensures j <= k ==> Pow2(j) <= Pow2(k)
    ensures j < k ==> Pow2(j) < Pow2(k)
    decreases k
  {
    if 0 < k && j < k {
      Pow2Monotone(j, k - 1);
    }
  }
}
