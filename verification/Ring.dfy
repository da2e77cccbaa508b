/** Places on a ring of `m`. */
module Ring {

  function Next(i: nat, m: nat): (j: nat)
    requires i < m
    ensures j < m
  {
    if i + 1 < m then i + 1 else 0
  }

  lemma {:induction false} NextIsMod(i: nat, m: nat)
    requires i < m
    ensures (i + 1) % m == Next(i, m)
  {
    if i + 1 < m {
      assert (i + 1) % m == i + 1;
    }
  }

  /** The place `d` steps after `h`. */
  function Wrap(h: nat, d: nat, m: nat): (i: nat)
    requires h < m && d < m
    ensures i < m
  {
    if h + d < m then h + d else h + d - m
  }

  /** How many steps `i` is after `h`. */
  function Steps(h: nat, i: nat, m: nat): (d: nat)
    requires h < m && i < m
    ensures d < m && Wrap(h, d, m) == i
  {
    if h <= i then i - h else i + m - h
  }

  /** The place `d` steps after `h`, which is `h` again after going all around. */
  function Around(h: nat, d: nat, m: nat): (i: nat)
    requires h < m && d <= m
    ensures i < m
  {
    if d < m then Wrap(h, d, m) else h
  }
}
