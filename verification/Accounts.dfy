/** Account maps, compared up to accounts that hold nothing. */
module Accounts {

  datatype Account = Account(balance: int, nonce: int)

  type Accounts = map<string, Account>

  const ZERO := Account(0, 0)

  /** An absent account reads as the zero account. */
  function Get(a: Accounts, addr: string): Account
  {
    if addr in a then a[addr] else ZERO
  }

  /** The accounts the state commitment can see. */
  function Norm(a: Accounts): (n: Accounts)
  {
    map k | k in a && a[k] != ZERO :: a[k]
  }

  /** Equality modulo zero accounts. */
  ghost predicate Same(a: Accounts, b: Accounts)
  {
    forall k :: Get(a, k) == Get(b, k)
  }

  lemma SameIsEquivalence(a: Accounts, b: Accounts, d: Accounts)
    ensures Same(a, a)
    ensures Same(a, b) ==> Same(b, a)
    ensures Same(a, b) && Same(b, d) ==> Same(a, d)
  {
  }

  lemma SameIsNormEquality(a: Accounts, b: Accounts)
    ensures Same(a, b) <==> Norm(a) == Norm(b)
  {
    assert forall k :: Get(Norm(a), k) == Get(a, k);
    assert forall k :: Get(Norm(b), k) == Get(b, k);
    if Same(a, b) {
      assert forall k :: k in Norm(a) <==> Get(a, k) != ZERO;
      assert forall k :: k in Norm(b) <==> Get(b, k) != ZERO;
    }
  }

  /** `a` with zero accounts created at every address of `zs` that had none. */
  function WithZeros(a: Accounts, zs: set<string>): (r: Accounts)
    ensures Same(a, r)
  {
    map k | k in a.Keys + zs :: Get(a, k)
  }

  function Pay(a: Accounts, addr: string, amount: int): Accounts
  {
    a[addr := Get(a, addr).(balance := Get(a, addr).balance + amount)]
  }

  /** Sum of all balances. */
  ghost function Total(a: Accounts): int
    decreases |a|
  {
    if a == map[] then 0
    else
      var k :| k in a;
      a[k].balance + Total(a - {k})
  }

  lemma {:induction false} TotalRemove(a: Accounts, k: string)
    requires k in a
    ensures Total(a) == a[k].balance + Total(a - {k})
    decreases |a|
  {
    var p :| p in a && Total(a) == a[p].balance + Total(a - {p});
    if p != k {
      TotalRemove(a - {p}, k);
      TotalRemove(a - {k}, p);
      assert a - {p} - {k} == a - {k} - {p};
    }
  }

  lemma TotalPut(a: Accounts, k: string, v: Account)
    ensures Total(a[k := v]) == Total(a) - Get(a, k).balance + v.balance
  {
    TotalRemove(a[k := v], k);
    assert a[k := v] - {k} == a - {k};
    if k in a {
      TotalRemove(a, k);
    } else {
      assert a - {k} == a;
    }
  }

  lemma {:induction false} TotalWithZeros(a: Accounts, zs: set<string>)
    ensures Total(WithZeros(a, zs)) == Total(a)
    decreases zs
  {
    if zs == {} {
      assert WithZeros(a, zs) == a;
    } else {
      var z :| z in zs;
      TotalWithZeros(a, zs - {z});
      var b := WithZeros(a, zs - {z});
      TotalPut(b, z, Get(a, z));
      assert b[z := Get(a, z)] == WithZeros(a, zs);
    }
  }

  lemma TotalSame(a: Accounts, b: Accounts)
    requires Same(a, b)
    ensures Total(a) == Total(b)
  {
    TotalWithZeros(a, b.Keys);
    TotalWithZeros(b, a.Keys);
    assert WithZeros(a, b.Keys) == WithZeros(b, a.Keys);
  }
}
