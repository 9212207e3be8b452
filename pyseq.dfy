/**
 The three Python list primitives the packer is built from, with their Python
 meaning written out: `sum(lists, [])` (a left fold of list concatenation),
 the clamping slice `s[i:j]`, and `range(start, stop, step)` for a positive step.
 */
module PySeq {

  /** `sum(lists, [])`: Python's `sum` folds `+` from the left, starting at `[]`. */
  function Concat<T>(lists: seq<seq<T>>): seq<T>
  {
    if |lists| == 0 then [] else Concat(lists[..|lists| - 1]) + lists[|lists| - 1]
  }

  /** Reference flattening, folded from the right. */
  function Flatten<T>(lists: seq<seq<T>>): seq<T>
  {
    if |lists| == 0 then [] else lists[0] + Flatten(lists[1..])
  }

  /** The number of elements in `lists[..k]` taken together: where list `k` starts once flattened. */
  function Offset<T>(lists: seq<seq<T>>, k: nat): nat
    requires k <= |lists|
  {
    if k == 0 then 0 else Offset(lists, k - 1) + |lists[k - 1]|
  }

  lemma {:induction false} ConcatAppend<T>(a: seq<seq<T>>, b: seq<seq<T>>)
    ensures Concat(a + b) == Concat(a) + Concat(b)
    decreases |b|
  {
    if |b| == 0 {
      assert a + b == a;
    } else {
      var b' := b[..|b| - 1];
      assert (a + b)[..|a + b| - 1] == a + b';
      ConcatAppend(a, b');
    }
  }

  /** The left fold of `sum` and the right fold agree: concatenation is associative. */
  lemma {:induction false} ConcatIsFlatten<T>(lists: seq<seq<T>>)
    ensures Concat(lists) == Flatten(lists)
    decreases |lists|
  {
    if |lists| > 0 {
      assert lists == [lists[0]] + lists[1..];
      ConcatAppend([lists[0]], lists[1..]);
      assert Concat([lists[0]]) == Concat(lists[..0]) + lists[0];
      ConcatIsFlatten(lists[1..]);
    }
  }

  lemma {:induction false} ConcatLength<T>(lists: seq<seq<T>>)
    ensures |Concat(lists)| == Offset(lists, |lists|)
    decreases |lists|
  {
    if |lists| > 0 {
      var init := lists[..|lists| - 1];
      ConcatLength(init);
      OffsetPrefix(lists, |lists| - 1);
    }
  }

  /** Offsets only depend on the lists before the position asked about. */
  lemma {:induction false} OffsetPrefix<T>(lists: seq<seq<T>>, k: nat)
    requires k <= |lists|
    ensures Offset(lists[..k], k) == Offset(lists, k)
    decreases k
  {
    if k > 0 {
      assert lists[..k][..k - 1] == lists[..k - 1];
      OffsetPrefix(lists[..k], k - 1);
      OffsetPrefix(lists, k - 1);
    }
  }

  /** Offsets never decrease along the list of lists. */
  lemma {:induction false} OffsetMonotone<T>(lists: seq<seq<T>>, k: nat, k': nat)
    requires k <= k' <= |lists|
    ensures Offset(lists, k) <= Offset(lists, k')
    decreases k' - k
  {
    if k < k' {
      OffsetMonotone(lists, k, k' - 1);
    }
  }

  /**
   List `k` sits untouched in the flattened sequence, between everything that
   comes before it and everything that comes after it.
   */
  lemma {:induction false} ConcatSplit<T>(lists: seq<seq<T>>, k: nat)
    requires k < |lists|
    ensures Concat(lists) == Concat(lists[..k]) + lists[k] + Concat(lists[k + 1..])
  {
    assert lists == lists[..k] + [lists[k]] + lists[k + 1..];
    ConcatAppend(lists[..k] + [lists[k]], lists[k + 1..]);
    ConcatAppend(lists[..k], [lists[k]]);
    assert Concat([lists[k]]) == Concat([lists[k]][..0]) + lists[k];
  }

  /** List `k` occupies exactly the positions `Offset(lists, k) .. Offset(lists, k + 1)` of the flattened sequence. */
  lemma Placement<T>(lists: seq<seq<T>>, k: nat)
    requires k < |lists|
    ensures Offset(lists, k + 1) == Offset(lists, k) + |lists[k]| <= |Concat(lists)|
    ensures Concat(lists)[Offset(lists, k)..Offset(lists, k + 1)] == lists[k]
  {
    ConcatSplit(lists, k);
    ConcatLength(lists[..k]);
    OffsetPrefix(lists, k);
  }

  /** Element `i` of list `k` comes before element `i'` of any later list `k'` once flattened. */
  lemma Order<T>(lists: seq<seq<T>>, k: nat, i: nat, k': nat, i': nat)
    requires k < k' < |lists| && i < |lists[k]| && i' < |lists[k']|
    ensures Offset(lists, k) + i < Offset(lists, k') + i' < |Concat(lists)|
    ensures Concat(lists)[Offset(lists, k) + i] == lists[k][i]
    ensures Concat(lists)[Offset(lists, k') + i'] == lists[k'][i']
  {
    Placement(lists, k);
    Placement(lists, k');
    OffsetMonotone(lists, k + 1, k');
  }

  function Min(a: int, b: int): int { if a <= b then a else b }

  /** Python `s[i:j]` for non-negative bounds: each bound is clamped to `len(s)`, and an empty result when `j <= i`. */
  function Slice<T>(s: seq<T>, i: nat, j: nat): (r: seq<T>)
    ensures |r| == if j <= i || |s| <= i then 0 else Min(j, |s|) - i
    ensures forall k :: 0 <= k < |r| ==> i + k < |s| && r[k] == s[i + k]
    ensures i <= j <= |s| ==> r == s[i..j]
  {
    var lo := Min(i, |s|);
    var hi := Min(j, |s|);
    if hi <= lo then [] else s[lo..hi]
  }

  /**
   Python `range(start, stop, step)` for `step > 0`: the elements step by
   `step` from `start` and all lie below `stop`.
   */
  function Range(start: int, stop: int, step: nat): (r: seq<int>)
    requires step > 0
    ensures forall k :: 0 <= k < |r| ==> start <= r[k] == start + k * step < stop
    decreases stop - start
  {
    if start >= stop then []
    else
      var rest := Range(start + step, stop, step);
      var r := [start] + rest;
      assert forall k :: 0 <= k < |r| ==> start <= r[k] == start + k * step < stop by {
        forall k | 0 <= k < |r| ensures start <= r[k] == start + k * step < stop {
          if k > 0 {
            assert r[k] == rest[k - 1];
            MulSucc(k - 1, step);
          }
        }
      }
      r
  }

  /** `range` stops only once one more step would reach or pass `stop`. */
  lemma {:induction false} RangeReachesStop(start: int, stop: int, step: nat)
    requires step > 0
    ensures start + |Range(start, stop, step)| * step >= stop
    decreases stop - start
  {
    if start < stop {
      var r, rest := Range(start, stop, step), Range(start + step, stop, step);
      assert |r| == |rest| + 1;
      RangeReachesStop(start + step, stop, step);
      StepBack(start, stop, step, |rest|, |r|);
    }
  }

  /** `range(0, n * step, step)` has exactly `n` elements. */
  lemma RangeOfMultiple(n: nat, step: nat)
    requires step > 0
    ensures |Range(0, n * step, step)| == n
  {
    var r := Range(0, n * step, step);
    RangeReachesStop(0, n * step, step);
    MulLe(|r|, n - 1, step);
    MulSucc(n - 1, step);
    MulLe(n, |r| - 1, step);
    if |r| > 0 {
      assert r[|r| - 1] == (|r| - 1) * step;
    }
  }

  lemma StepBack(start: int, stop: int, step: nat, m: nat, n: nat)
    requires n == m + 1 && start + step + m * step >= stop
    ensures start + n * step >= stop
  {
    MulSucc(m, step);
  }

  lemma MulSucc(k: int, c: int)
    ensures (k + 1) * c == k * c + c
  {
  }

  lemma MulLe(a: int, b: int, c: nat)
    ensures a <= b ==> a * c <= b * c
  {
  }

  /** Euclidean division is determined by quotient and remainder. */
  lemma DivUnique(a: int, w: int, q: int, m: int)
    requires w > 0 && 0 <= m < w && a == q * w + m
    ensures a / w == q && a % w == m
  {
    var q', m' := a / w, a % w;
    assert (q - q') * w == m' - m;
    MulLe(1, q - q', w);
    MulLe(1, q' - q, w);
  }

  /** The quotient is zero exactly when the dividend is below the divisor. */
  lemma QuotientZero(t: nat, w: nat)
    requires w > 0
    ensures t / w == 0 <==> t < w
  {
    if t < w {
      DivUnique(t, w, 0, t);
    } else {
      DivUnique(t, w, t / w, t % w);
      MulLe(t / w, 0, w);
    }
  }
}
