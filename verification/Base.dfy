/** Vocabulary shared by every module, and the finite counting facts their proofs rest on. */
module Base {

  /** A vault path, a principal or a server-assigned id. The code only ever compares these for
      equality and for order, so an ordered type with no further structure stands for them. */
  type Path = int

  datatype Option<+T> = None | Some(value: T)

  datatype Result<+T, +E> = Ok(value: T) | Err(error: E)

  ghost predicate Distinct<T>(s: seq<T>) {
    forall i, j :: 0 <= i < j < |s| ==> s[i] != s[j]
  }

  lemma PrefixStep<T>(s: seq<T>, n: nat)
    requires n < |s|
    ensures s[..n + 1] == s[..n] + [s[n]]
    ensures Distinct(s) ==> s[n] !in s[..n]
  {
  }

  function ToSet<T(!new)>(s: seq<T>): (r: set<T>)
    ensures forall x :: x in r <==> x in s
  {
    set x | x in s
  }

  /** A sequence without repetitions has exactly as many entries as distinct values. */
  lemma {:induction false} DistinctCardinality<T(!new)>(s: seq<T>)
    requires Distinct(s)
    ensures |ToSet(s)| == |s|
  {
    if s != [] {
      var front, last := s[..|s| - 1], s[|s| - 1];
      DistinctCardinality(front);
      assert s == front + [last];
      assert ToSet(s) == ToSet(front) + {last};
    }
  }

  lemma SubsetCardinality<T>(a: set<T>, b: set<T>)
    requires a <= b
    ensures |a| <= |b|
    ensures |a| == |b| ==> a == b
  {
    assert b == a + (b - a);
  }

  function Range(n: nat): (r: set<nat>)
    ensures forall i: nat :: i in r <==> i < n
    ensures |r| == n
  {
    if n == 0 then {} else Range(n - 1) + {n - 1}
  }

  /** Pigeonhole: distinct numbers below `n` are at most `n` many. */
  lemma Pigeonhole(s: seq<nat>, n: nat)
    requires Distinct(s)
    requires forall x :: x in s ==> x < n
    ensures |s| <= n
  {
    DistinctCardinality(s);
    SubsetCardinality(ToSet(s), Range(n));
  }

  /** The number of grid cell (`p.0`, `p.1`), counting row by row in rows of `width` cells. */
  function Cell(p: (nat, nat), width: nat): nat {
    p.0 * width + p.1
  }

  lemma CellOrder(p: (nat, nat), q: (nat, nat), width: nat)
    requires p.1 < width && p.0 < q.0
    ensures Cell(p, width) < Cell(q, width)
  {
    assert (p.0 + 1) * width <= q.0 * width;
  }

  lemma CellInjective(p: (nat, nat), q: (nat, nat), width: nat)
    requires p.1 < width && q.1 < width && Cell(p, width) == Cell(q, width)
    ensures p == q
  {
    if p.0 < q.0 {
      CellOrder(p, q, width);
    } else if q.0 < p.0 {
      CellOrder(q, p, width);
    }
  }

  /** Pigeonhole on a grid: distinct cells of a `rows` by `width` grid are at most `rows * width` many. */
  lemma PairPigeonhole(s: seq<(nat, nat)>, rows: nat, width: nat)
    requires Distinct(s)
    requires forall p :: p in s ==> p.0 < rows && p.1 < width
    ensures |s| <= rows * width
  {
    var cells := seq(|s|, i requires 0 <= i < |s| => Cell(s[i], width));
    forall i, j | 0 <= i < j < |s| ensures cells[i] != cells[j] {
      if Cell(s[i], width) == Cell(s[j], width) {
        CellInjective(s[i], s[j], width);
      }
    }
    forall i | 0 <= i < |s| ensures cells[i] < rows * width {
      assert s[i] in s;
      CellOrder(s[i], (rows, 0), width);
    }
    Pigeonhole(cells, rows * width);
  }

  /** Some member, whichever the iteration order happens to give. */
  method AnyOf<T>(s: set<T>) returns (x: T)
    requires s != {}
    ensures x in s
  {
    x :| x in s;
  }
}
