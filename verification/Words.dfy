/** Periodic words: repeated blocks, primitive blocks, and the shifts that leave
    a cyclic word unchanged. */
module Words {
  import opened Arithmetic

  /** `w` consists of copies of its first `d` letters. */
  ghost predicate IsPowerOf<T>(w: seq<T>, d: nat) {
    && 0 < d <= |w|
    && |w| % d == 0
    && forall i :: 0 <= i < |w| ==> w[i] == w[i % d]
  }

  /** `u` is not a repetition of a shorter block. */
  ghost predicate Primitive<T>(u: seq<T>) {
    |u| > 0 && forall d :: 0 < d < |u| ==> !IsPowerOf(u, d)
  }

  /** `d` is the length of the shortest block that `w` repeats. */
  ghost predicate IsLeastRepeat<T>(w: seq<T>, d: nat) {
    IsPowerOf(w, d) && forall e :: 0 < e < d ==> !IsPowerOf(w, e)
  }

  /** The least repeat, searched upwards from `d`. */
  ghost function LeastRepeatFrom<T>(w: seq<T>, d: nat): (r: nat)
    requires 0 < d <= |w| && forall e :: 0 < e < d ==> !IsPowerOf(w, e)
    ensures IsLeastRepeat(w, r)
    decreases |w| - d
  {
    if IsPowerOf(w, d) then d
    else
      assert d != |w| by { if d == |w| { WholeIsPower(w); } }
      LeastRepeatFrom(w, d + 1)
  }

  ghost function LeastRepeat<T>(w: seq<T>): (r: nat)
    requires w != []
    ensures IsLeastRepeat(w, r)
  {
    LeastRepeatFrom(w, 1)
  }

  lemma LeastRepeatUnique<T>(w: seq<T>, a: nat, b: nat)
    requires IsLeastRepeat(w, a) && IsLeastRepeat(w, b)
    ensures a == b
  {
  }

  lemma WholeIsPower<T>(w: seq<T>)
    requires w != []
    ensures IsPowerOf(w, |w|)
  {
    ModUnique(|w|, |w|, 1, 0);
    forall i | 0 <= i < |w| ensures w[i] == w[i % |w|] {
      ModUnique(i, |w|, 0, i);
    }
  }

  function Power<T>(u: seq<T>, k: nat): (w: seq<T>)
    ensures |w| == k * |u|
  {
    if k == 0 then [] else u + Power(u, k - 1)
  }

  /** The letter at position `i` of the endless repetition of `u`. */
  function At<T>(u: seq<T>, i: nat): T
    requires |u| > 0
  {
    u[i % |u|]
  }

  /** Shifting the endless repetition of `u` by `s` leaves it unchanged. */
  ghost predicate ShiftInvariant<T>(u: seq<T>, s: nat)
    requires |u| > 0
  {
    forall i: nat :: At(u, i) == At(u, i + s)
  }

  // ----- arithmetic of positions

  /** Every residue class meets every window of `p` consecutive positions. */
  lemma ResidueInWindow(lo: nat, p: nat, r: nat) returns (j: nat)
    requires r < p
    ensures lo <= j < lo + p && j % p == r
  {
    var q := lo / p;
    assert lo == q * p + lo % p;
    if lo % p <= r {
      j := q * p + r;
      ModUnique(j, p, q, r);
    } else {
      j := (q + 1) * p + r;
      assert (q + 1) * p == q * p + p;
      ModUnique(j, p, q + 1, r);
    }
  }

  // ----- powers

  lemma {:induction false} PowerAt<T>(u: seq<T>, k: nat, i: nat)
    requires |u| > 0 && i < k * |u|
    ensures Power(u, k)[i] == At(u, i)
  {
    assert k > 0;
    if i < |u| {
      ModUnique(i, |u|, 0, i);
    } else {
      PowerAt(u, k - 1, i - |u|);
      ModAddMultiple(i - |u|, 1, |u|);
    }
  }

  /** The index-wise definition agrees with writing the copies out. */
  lemma IsPowerOfMeansCopies<T>(w: seq<T>, d: nat)
    requires 0 < d <= |w| && |w| % d == 0
    ensures IsPowerOf(w, d) <==> w == Power(w[..d], |w| / d)
  {
    var v := Power(w[..d], |w| / d);
    assert |w| / d * d == |w|;
    forall i | 0 <= i < |w| ensures v[i] == w[i % d] {
      PowerAt(w[..d], |w| / d, i);
    }
    assert |v| == |w|;
    if IsPowerOf(w, d) {
      assert w == v;
    }
  }

  /** The block found by the search for the least repeat is itself primitive. */
  lemma LeastRepeatIsPrimitive<T>(w: seq<T>, d: nat)
    requires IsLeastRepeat(w, d)
    ensures Primitive(w[..d])
  {
    var u := w[..d];
    forall e | 0 < e < d ensures !IsPowerOf(u, e) {
      if IsPowerOf(u, e) {
        PowerOfPower(w, d, e);
      }
    }
  }

  lemma PowerOfPower<T>(w: seq<T>, d: nat, e: nat)
    requires IsPowerOf(w, d) && 0 < e < d && IsPowerOf(w[..d], e)
    ensures IsPowerOf(w, e)
  {
    DivisorOfMultiple(|w|, d, e);
    forall i | 0 <= i < |w| ensures w[i] == w[i % e] {
      var j := i % d;
      assert w[i] == w[j] == w[..d][j] == w[..d][j % e];
      ModOfMultiple(i, d, e);
    }
  }

  /** A block whose first letter does not come again is primitive. */
  lemma LoneFirstIsPrimitive<T>(u: seq<T>)
    requires |u| > 0 && forall i :: 0 < i < |u| ==> u[i] != u[0]
    ensures Primitive(u) && LeastRepeat(u) == |u|
  {
    forall d | 0 < d < |u| ensures !IsPowerOf(u, d) {
      ModUnique(d, d, 1, 0);
    }
  }

  // ----- shifts

  lemma ShiftBySize<T>(u: seq<T>)
    requires |u| > 0
    ensures ShiftInvariant(u, |u|)
  {
    forall i: nat ensures At(u, i) == At(u, i + |u|) {
      ModAddMultiple(i, 1, |u|);
    }
  }

  /** Shifts are closed under taking remainders. */
  lemma {:induction false} ShiftMod<T>(u: seq<T>, s: nat, t: nat)
    requires |u| > 0 && t > 0 && ShiftInvariant(u, s) && ShiftInvariant(u, t)
    ensures ShiftInvariant(u, s % t)
    decreases s
  {
    if s < t {
      ModUnique(s, t, 0, s);
    } else {
      forall i: nat ensures At(u, i) == At(u, i + (s - t)) {
        assert At(u, i) == At(u, i + s);
        assert At(u, i + (s - t)) == At(u, i + (s - t) + t);
        assert i + (s - t) + t == i + s;
      }
      ShiftMod(u, s - t, t);
      ModAddMultiple(s - t, 1, t);
    }
  }

  lemma {:induction false} LeastShift<T>(u: seq<T>, bound: nat) returns (s: nat)
    requires |u| > 0 && bound > 0 && ShiftInvariant(u, bound)
    ensures 0 < s <= bound && ShiftInvariant(u, s)
    ensures forall t :: 0 < t < s ==> !ShiftInvariant(u, t)
  {
    if t: nat :| 0 < t < bound && ShiftInvariant(u, t) {
      s := LeastShift(u, t);
    } else {
      s := bound;
    }
  }

  /** The shifts of a primitive block are the multiples of its length, and no others. */
  lemma PrimitiveShift<T>(u: seq<T>, s: nat)
    requires Primitive(u)
    ensures ShiftInvariant(u, s) <==> s % |u| == 0
  {
    assert u != [];
    hide Primitive, ShiftInvariant, At;
    if ShiftInvariant(u, s) {
      ShiftIsMultiple(u, s);
    }
    if s % |u| == 0 {
      MultipleIsShift(u, s / |u|);
    }
  }

  lemma MultipleIsShift<T>(u: seq<T>, k: nat)
    requires |u| > 0
    ensures 0 <= k * |u| && ShiftInvariant(u, k * |u|)
  {
    MulNonNegative(k, |u|);
    forall i: nat ensures At(u, i) == At(u, i + k * |u|) {
      ModAddMultiple(i, k, |u|);
    }
  }

  lemma ShiftIsMultiple<T>(u: seq<T>, s: nat)
    requires Primitive(u) && ShiftInvariant(u, s)
    ensures s % |u| == 0
  {
    ShiftBySize(u);
    var t := LeastShift(u, |u|);
    ShiftMod(u, |u|, t);
    ShiftMod(u, s, t);
    assert |u| % t == 0 && s % t == 0;
    forall i | 0 <= i < |u| ensures u[i] == u[i % t] {
      ShiftMultiple(u, t, i / t, i % t);
      assert i == i % t + (i / t) * t;
      ModUnique(i, |u|, 0, i);
      assert i % t <= i by {
        assert i / t >= 0;
      }
      ModUnique(i % t, |u|, 0, i % t);
    }
    assert IsPowerOf(u, t);
  }

  lemma {:induction false} ShiftMultiple<T>(u: seq<T>, t: nat, k: nat, i: nat)
    requires |u| > 0 && ShiftInvariant(u, t)
    ensures At(u, i) == At(u, i + k * t)
  {
    if k > 0 {
      ShiftMultiple(u, t, k - 1, i);
      assert i + k * t == (i + (k - 1) * t) + t;
    }
  }

  // ----- squares and powers inside a periodic stretch

  /** From position `lo` on, `r` reads the endless repetition of `u` at phase `off`. */
  ghost predicate ReadsFrom<T>(r: seq<T>, lo: nat, u: seq<T>, off: nat)
    requires |u| > 0
  {
    lo <= |r| && forall i :: lo <= i < |r| ==> r[i] == At(u, i + off)
  }

  /** The last `L` letters of `r` repeat the `L` letters before them. */
  ghost predicate SquareAtEnd<T>(r: seq<T>, L: nat) {
    && 1 <= L && 2 * L <= |r|
    && r[|r| - L..] == r[|r| - 2 * L..|r| - L]
  }

  /** A square that covers a whole primitive block has a multiple of its length. */
  lemma SquareLength<T>(r: seq<T>, u: seq<T>, off: nat, L: nat)
    requires Primitive(u) && SquareAtEnd(r, L) && |u| <= L
    requires ReadsFrom(r, |r| - 2 * L, u, off)
    ensures L % |u| == 0
  {
    var n, p := |r|, |u|;
    forall i: nat ensures At(u, i) == At(u, i + L) {
      var j := ResidueInWindow(n - 2 * L + off, p, i % p);
      var x := j - off;
      assert r[n - L..][x - (n - 2 * L)] == r[n - 2 * L..n - L][x - (n - 2 * L)];
      assert r[x] == r[x + L];
      assert r[x] == At(u, j) && r[x + L] == At(u, j + L);
      ModAddMod(L, j, p);
      ModAddMod(L, i, p);
    }
    PrimitiveShift(u, L);
  }

  /** Within a stretch of `u`, a multiple of |u| always gives a square. */
  lemma MultipleIsSquare<T>(r: seq<T>, u: seq<T>, off: nat, L: nat)
    requires |u| > 0 && L % |u| == 0 && 1 <= L && 2 * L <= |r|
    requires ReadsFrom(r, |r| - 2 * L, u, off)
    ensures SquareAtEnd(r, L)
  {
    var n := |r|;
    var a, b := r[n - L..], r[n - 2 * L..n - L];
    forall k | 0 <= k < L ensures a[k] == b[k] {
      var x := n - 2 * L + k;
      assert L == (L / |u|) * |u|;
      ModAddMultiple(x + off, L / |u|, |u|);
      assert r[x] == r[x + L];
    }
  }

  /** `w` reads the endless repetition of `u`, starting at phase `b`. */
  ghost predicate Reads<T>(w: seq<T>, u: seq<T>, b: nat)
    requires |u| > 0
  {
    forall i :: 0 <= i < |w| ==> w[i] == At(u, b + i)
  }

  /** The least repeat of a whole number of copies of a primitive block is that block's length. */
  lemma LeastRepeatOfStretch<T>(w: seq<T>, u: seq<T>, b: nat, d: nat)
    requires Primitive(u) && |w| > 0 && |w| % |u| == 0 && Reads(w, u, b)
    requires IsLeastRepeat(w, d)
    ensures d == |u|
  {
    AtLeastOneMultiple(|w|, |u|);
    StretchIsPower(w, u, b);
    StretchPowerIsShift(w, u, b, d);
    PrimitiveShift(u, d);
    AtLeastOneMultiple(d, |u|);
  }

  lemma StretchPowerIsShift<T>(w: seq<T>, u: seq<T>, b: nat, d: nat)
    requires 0 < |u| <= |w| && |w| % |u| == 0 && IsPowerOf(w, d) && Reads(w, u, b)
    ensures ShiftInvariant(u, d)
  {
    var p := |u|;
    forall i: nat ensures At(u, i) == At(u, i + d) {
      var j := ResidueInWindow(b, p, i % p);
      StretchShift(w, u, b, d, j - b);
      ModAddMod(d, j, p);
      ModAddMod(d, i, p);
    }
  }

  lemma AtLeastOneMultiple(a: nat, p: nat)
    requires p > 0 && a > 0 && a % p == 0
    ensures p <= a
  {
    if a < p {
      ModUnique(a, p, 0, a);
    }
  }

  lemma StretchIsPower<T>(w: seq<T>, u: seq<T>, b: nat)
    requires 0 < |u| <= |w| && |w| % |u| == 0
    requires Reads(w, u, b)
    ensures IsPowerOf(w, |u|)
  {
    var p := |u|;
    forall i | 0 <= i < |w| ensures w[i] == w[i % p] {
      ModAddMod(b, i, p);
      assert w[i % p] == At(u, b + i % p);
    }
  }

  lemma StretchShift<T>(w: seq<T>, u: seq<T>, b: nat, d: nat, x: nat)
    requires 0 < |u| <= |w| && |w| % |u| == 0 && IsPowerOf(w, d) && x < |w|
    requires Reads(w, u, b)
    ensures At(u, b + x) == At(u, b + x + d)
  {
    var k := (x + d) % |w|;
    PowerWraps(w, d, x);
    assert w[x] == At(u, b + x) && w[k] == At(u, b + k);
    WrapResidue(b, x + d, |w|, |u|);
  }

  lemma WrapResidue(b: nat, x: nat, w: nat, p: nat)
    requires p > 0 && w > 0 && w % p == 0
    ensures (b + x % w) % p == (b + x) % p
  {
    ModOfMultiple(x, w, p);
    ModAddMod(b, x % w, p);
    ModAddMod(b, x, p);
  }

  lemma PowerWraps<T>(w: seq<T>, d: nat, i: nat)
    requires IsPowerOf(w, d) && i < |w|
    ensures w[i] == w[(i + d) % |w|]
  {
    ModOfMultiple(i + d, |w|, d);
    ModAddMultiple(i, 1, d);
  }
}
