/** Nodes by number: the root is 1, and the halves of node `n` are `2n` and `2n + 1`. */
module NodeIds {

  function Depth(n: nat): nat {
    if n <= 1 then 0 else 1 + Depth(n / 2)
  }

  /** Node `m` is node `n` or lies below it. */
  ghost predicate Under(m: nat, n: nat) {
    m == n || (m > n && Under(m / 2, n))
  }

  lemma {:induction false} UnderSteps(m: nat, n: nat)
    requires Under(m, n) && m != n && n > 0
    ensures Under(m, 2 * n) || Under(m, 2 * n + 1)
  {
    if m / 2 != n { UnderSteps(m / 2, n); }
  }

  lemma {:induction false} UnderLarger(m: nat, n: nat)
    requires Under(m, n)
    ensures m >= n
  {
  }

  lemma {:induction false} UnderTrans(m: nat, c: nat, n: nat)
    requires Under(m, c) && Under(c, n)
    ensures Under(m, n)
  {
    if m != c {
      UnderLarger(m / 2, c);
      UnderLarger(c, n);
      UnderTrans(m / 2, c, n);
    }
  }

  lemma {:induction false} UnderRoot(m: nat)
    requires m > 0
    ensures Under(m, 1)
  {
    if m > 1 { UnderRoot(m / 2); }
  }

  lemma {:induction false} UnderBoth(m: nat, n: nat)
    requires Under(m, n) && Under(n, m)
    ensures m == n
  {
    UnderLarger(m, n);
    UnderLarger(n, m);
  }
}
