/** Shared vocabulary: results, and sequences of blocks. */
module Common {
  datatype Option<+T> = None | Some(value: T)

  datatype Result<+T, +E> = Ok(value: T) | Err(error: E)

  const UINT32: nat := 0x1_0000_0000

  type uint32 = x: int | 0 <= x < 0x1_0000_0000

  /** Conversion to uint32_t. */
  function Uint32(x: int): nat { x % UINT32 }

  lemma MulBound(a: nat, b: nat, m: nat, n: nat)
    requires a <= m && b <= n
    ensures 0 <= a * b <= m * n
  {
    var x: nat, y: nat := a * b, (m - a) * b;
    var z: nat := m * (n - b);
    assert m * n == x + y + z;
  }

  lemma SplitUnique(q: nat, r: nat, d: nat)
    requires r < d
    ensures (q * d + r) / d == q && (q * d + r) % d == r
  {
    var n := q * d + r;
    assert n == (n / d) * d + n % d;
    if n / d < q {
      MulBound(n / d + 1, d, q, d);
    } else if n / d > q {
      MulBound(q + 1, d, n / d, d);
    }
  }

  ghost predicate Distinct<T>(s: seq<T>) {
    forall i, j :: 0 <= i < j < |s| ==> s[i] != s[j]
  }

  /** The elements of all blocks, in order. */
  function Concat<T>(blocks: seq<seq<T>>): seq<T> {
    if blocks == [] then [] else blocks[0] + Concat(blocks[1..])
  }

  lemma {:induction false} ConcatSplit<T>(a: seq<seq<T>>, b: seq<seq<T>>)
    ensures Concat(a + b) == Concat(a) + Concat(b)
  {
    if a == [] {
      assert a + b == b;
    } else {
      calc {
        Concat(a + b);
        { assert (a + b)[0] == a[0] && (a + b)[1..] == a[1..] + b; }
        a[0] + Concat(a[1..] + b);
        { ConcatSplit(a[1..], b); }
        a[0] + (Concat(a[1..]) + Concat(b));
        (a[0] + Concat(a[1..])) + Concat(b);
      }
    }
  }

  lemma ConcatSnoc<T>(a: seq<seq<T>>, block: seq<T>)
    ensures Concat(a + [block]) == Concat(a) + block
  {
    ConcatSplit(a, [block]);
    assert Concat([block]) == block;
  }

  /** The blocks up to `k` hold a prefix of all elements. */
  lemma ConcatTake<T>(a: seq<seq<T>>, k: nat)
    requires k <= |a|
    ensures Concat(a) == Concat(a[..k]) + Concat(a[k..])
  {
    ConcatSplit(a[..k], a[k..]);
    assert a[..k] + a[k..] == a;
  }

  lemma ConcatStep<T>(a: seq<seq<T>>, k: nat)
    requires k < |a|
    ensures Concat(a[..k + 1]) == Concat(a[..k]) + a[k]
  {
    assert a[..k + 1] == a[..k] + [a[k]];
    ConcatSnoc(a[..k], a[k]);
  }
}
