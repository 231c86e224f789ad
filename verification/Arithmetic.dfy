/** Facts about products that index arithmetic on flat buffers needs. */
module Arithmetic {
  lemma Distribute(a: nat, b: nat, c: nat)
    ensures (a + b) * c == a * c + b * c
  {
  }

  lemma MulAssociates(a: nat, b: nat, c: nat)
    ensures a * (b * c) == (a * b) * c
  {
  }

  /** Block `i` of `n` blocks ends where the next one begins, and no later than the last one ends. */
  lemma BlockFits(n: nat, i: nat, size: nat)
    requires i < n
    ensures i * size + size == (i + 1) * size <= n * size
  {
    Distribute(i, 1, size);
    Distribute(n - i - 1, i + 1, size);
  }

  /** Place `t` of block `i`, in a buffer of blocks of the given size. */
  function At(i: nat, size: nat, t: nat): nat {
    i * size + t
  }

  lemma AtIs(i: nat, size: nat, t: nat)
    ensures At(i, size, t) == i * size + t
  {
  }

  /** It lies inside a buffer of `n` blocks. */
  lemma InBlock(n: nat, size: nat, i: nat, t: nat)
    requires i < n && t < size
    ensures At(i, size, t) < n * size
  {
    Distribute(n - 1 - i, i + 1, size);
    Distribute(i, 1, size);
  }

  /** It determines its block, and where it lies in the block. */
  lemma SameBlock(size: nat, i: nat, t: nat, i': nat, t': nat)
    requires t < size && t' < size && At(i, size, t) == At(i', size, t')
    ensures i == i' && t == t'
  {
    if i < i' {
      BlockFits(i', i, size);
    } else if i' < i {
      BlockFits(i, i', size);
    }
  }
}
