/** Indexes of numbered things by a key, such as a deadline. */
module KeyedIndex {
  import opened Prelude

  function Enter<K>(index: map<K, set<nat>>, k: K, pid: nat): map<K, set<nat>> {
    index[k := (if k in index then index[k] else {}) + {pid}]
  }

  function Leave<K>(index: map<K, set<nat>>, k: K, pid: nat): map<K, set<nat>> {
    if k !in index then index
    else if index[k] - {pid} == {} then index - {k}
    else index[k := index[k] - {pid}]
  }

  predicate Filed<K(==)>(index: map<K, set<nat>>, m: map<nat, K>, pid: nat) {
    pid in m ==> m[pid] in index && pid in index[m[pid]]
  }

  predicate SlotOk<K(==)>(index: map<K, set<nat>>, m: map<nat, K>, k: K) {
    k in index ==> index[k] != {} && forall pid :: pid in index[k] ==> pid in m && m[pid] == k
  }

  /** `index` holds exactly the entries of `m`, by value, without empty slots. */
  ghost predicate Indexes<K(!new)>(index: map<K, set<nat>>, m: map<nat, K>) {
    (forall pid :: Filed(index, m, pid)) && (forall k :: SlotOk(index, m, k))
  }

  lemma EnterKeeps<K(!new)>(index: map<K, set<nat>>, m: map<nat, K>, k: K, pid: nat)
    requires Indexes(index, m) && pid !in m
    ensures Indexes(Enter(index, k, pid), m[pid := k])
  {
    var index', m' := Enter(index, k, pid), m[pid := k];
    forall q
      ensures Filed(index', m', q)
    {
      assert Filed(index, m, q);
    }
    forall j
      ensures SlotOk(index', m', j)
    {
      assert SlotOk(index, m, j);
    }
  }

  lemma LeaveKeeps<K(!new)>(index: map<K, set<nat>>, m: map<nat, K>, k: K, pid: nat)
    requires Indexes(index, m) && pid in m && m[pid] == k
    ensures Indexes(Leave(index, k, pid), m - {pid})
    ensures k in index && pid in index[k]
  {
    var index', m' := Leave(index, k, pid), m - {pid};
    assert Filed(index, m, pid);
    forall q
      ensures Filed(index', m', q)
    {
      assert Filed(index, m, q);
    }
    forall j
      ensures SlotOk(index', m', j)
    {
      assert SlotOk(index, m, j);
    }
  }

  /** Every process in slot `k` is dropped with the slot. */
  lemma DropSlotKeeps<K(!new)>(index: map<K, set<nat>>, m: map<nat, K>, k: K)
    requires Indexes(index, m) && k in index
    ensures Indexes(index - {k}, m - index[k])
  {
    forall q
      ensures Filed(index - {k}, m - index[k], q)
    {
      assert Filed(index, m, q);
    }
    forall j
      ensures SlotOk(index - {k}, m - index[k], j)
    {
      assert SlotOk(index, m, j) && SlotOk(index, m, k);
    }
  }

  // ---------------------------------------------------------------- the earliest deadline

  predicate IsLeast(next: Option<nat>, keys: set<nat>) {
    match next
    case None => keys == {}
    case Some(d) => d in keys && forall k :: k in keys ==> d <= k
  }

  /** The least element of a set. */
  method Least(s: set<nat>) returns (x: nat)
    requires s != {}
    ensures x in s && forall y :: y in s ==> x <= y
  {
    x :| x in s;
    var rest := s - {x};
    while rest != {}
      invariant x in s && rest <= s
      invariant forall y :: y in s && y !in rest ==> x <= y
      decreases rest
    {
      var y :| y in rest;
      if y < x {
        x := y;
      }
      rest := rest - {y};
    }
  }
}
