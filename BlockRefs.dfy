/**
 * The block server's reference map for one folder, as the quota reclamation
 * tests read it: for every block, the status of each of its reference nonces.
 * `TotalRefs` is the number `totalBlockRefs` computes; the lemmas say how
 * adding and removing one reference moves it.
 */
module BlockRefs {
  import opened DataTypes

  type RefMap = map<BlockId, map<RefNonce, RefStatus>>

  /** One reference: a block and one of its nonces. */
  datatype Ref = Ref(id: BlockId, nonce: RefNonce)

  predicate HasRef(m: RefMap, r: Ref)
  {
    r.id in m && r.nonce in m[r.id]
  }

  /** The number of references a block has (none when it is absent). */
  function RefCount(m: RefMap, id: BlockId): nat
  {
    if id in m then |m[id]| else 0
  }

  /** The sum of `RefCount` over a set of blocks, taken in an arbitrary order. */
  ghost function SumRefs(m: RefMap, ids: set<BlockId>): nat
    decreases ids
  {
    if ids == {} then 0
    else
      var id :| id in ids;
      RefCount(m, id) + SumRefs(m, ids - {id})
  }

  /** The total number of references, summed over every block of the map. */
  ghost function TotalRefs(m: RefMap): nat
  {
    SumRefs(m, m.Keys)
  }

  /** The server never keeps a block entry without references. */
  ghost predicate NoEmptyEntries(m: RefMap)
  {
    forall id :: id in m ==> m[id] != map[]
  }

  /** Every block has at most one reference. */
  ghost predicate AtMostOneRefEach(m: RefMap)
  {
    forall id :: id in m ==> |m[id]| <= 1
  }

  /** Records reference `nonce` of block `id` with the given status. */
  function AddRef(m: RefMap, id: BlockId, nonce: RefNonce, status: RefStatus): (m': RefMap)
    ensures HasRef(m', Ref(id, nonce)) && m'[id][nonce] == status
    ensures m'.Keys == m.Keys + {id}
    ensures forall other :: other in m && other != id ==> m'[other] == m[other]
    ensures forall n :: id in m && n in m[id] && n != nonce ==> n in m'[id] && m'[id][n] == m[id][n]
    ensures |m'[id]| == RefCount(m, id) + (if HasRef(m, Ref(id, nonce)) then 0 else 1)
  {
    var refs := if id in m then m[id] else map[];
    m[id := refs[nonce := status]]
  }

  /** Drops reference `nonce` of block `id`; a block left without references is dropped too. */
  function RemoveRef(m: RefMap, id: BlockId, nonce: RefNonce): (m': RefMap)
    ensures !HasRef(m', Ref(id, nonce))
    ensures forall other :: other != id ==> (other in m' <==> other in m)
    ensures forall other :: other in m && other != id ==> m'[other] == m[other]
    ensures id in m' ==> id in m && m'[id] == m[id] - {nonce} && m'[id] != map[]
    ensures RefCount(m', id) == RefCount(m, id) - (if HasRef(m, Ref(id, nonce)) then 1 else 0)
  {
    if id !in m then m
    else
      var rest := m[id] - {nonce};
      if rest == map[] then
        assert rest.Keys == m[id].Keys - {nonce} == {};
        assert m[id].Keys == if nonce in m[id] then {nonce} else {};
        m - {id}
      else m[id := rest]
  }

  /** Any block can be taken out of the sum first: the sum does not depend on the order. */
  lemma {:induction false} SumRefsPick(m: RefMap, ids: set<BlockId>, x: BlockId)
    requires x in ids
    ensures SumRefs(m, ids) == RefCount(m, x) + SumRefs(m, ids - {x})
    decreases ids
  {
    var y :| y in ids && SumRefs(m, ids) == RefCount(m, y) + SumRefs(m, ids - {y});
    if y != x {
      SumRefsPick(m, ids - {y}, x);
      SumRefsPick(m, ids - {x}, y);
      assert ids - {y} - {x} == ids - {x} - {y};
    }
  }

  /** Two maps that agree on the counts of a set of blocks have the same sum over it. */
  lemma {:induction false} SumRefsFrame(m1: RefMap, m2: RefMap, ids: set<BlockId>)
    requires forall id :: id in ids ==> RefCount(m1, id) == RefCount(m2, id)
    ensures SumRefs(m1, ids) == SumRefs(m2, ids)
    decreases ids
  {
    if ids != {} {
      var x :| x in ids;
      SumRefsPick(m1, ids, x);
      SumRefsPick(m2, ids, x);
      SumRefsFrame(m1, m2, ids - {x});
    }
  }

  /** The sum over a set of blocks is zero exactly when none of them has a reference. */
  lemma {:induction false} SumRefsZero(m: RefMap, ids: set<BlockId>)
    ensures SumRefs(m, ids) == 0 <==> forall id :: id in ids ==> RefCount(m, id) == 0
    decreases ids
  {
    if ids != {} {
      var x :| x in ids;
      SumRefsPick(m, ids, x);
      SumRefsZero(m, ids - {x});
    }
  }

  /** The empty map holds no references. */
  lemma EmptyMapHasNoRefs()
    ensures TotalRefs(map[]) == 0
  {
  }

  /** The total is zero exactly when every block's nonce map is empty. */
  lemma TotalRefsZeroIff(m: RefMap)
    ensures TotalRefs(m) == 0 <==> forall id :: id in m ==> m[id] == map[]
  {
    SumRefsZero(m, m.Keys);
    forall id | id in m
      ensures RefCount(m, id) == 0 <==> m[id] == map[]
    {
      if |m[id]| == 0 {
        assert m[id].Keys == {};
      }
    }
  }

  /** A map with no empty entries holds a reference exactly when it holds a block. */
  lemma NoEmptyEntriesTotalZero(m: RefMap)
    requires NoEmptyEntries(m)
    ensures TotalRefs(m) == 0 <==> m == map[]
  {
    TotalRefsZeroIff(m);
    if m != map[] {
      var id :| id in m;
      assert m[id] != map[];
    }
  }

  /** The total is the count of one block plus the total of the others. */
  lemma TotalRefsSplit(m: RefMap, id: BlockId)
    ensures TotalRefs(m) == RefCount(m, id) + SumRefs(m, m.Keys - {id})
  {
    if id in m {
      SumRefsPick(m, m.Keys, id);
    } else {
      assert m.Keys - {id} == m.Keys;
    }
  }

  /** Removing a present reference lowers the total by exactly one. */
  lemma RemoveRefDecrements(m: RefMap, id: BlockId, nonce: RefNonce)
    requires HasRef(m, Ref(id, nonce))
    ensures TotalRefs(RemoveRef(m, id, nonce)) == TotalRefs(m) - 1
  {
    var m' := RemoveRef(m, id, nonce);
    TotalRefsSplit(m, id);
    TotalRefsSplit(m', id);
    assert m'.Keys - {id} == m.Keys - {id};
    SumRefsFrame(m, m', m.Keys - {id});
  }

  /** Removing an absent reference leaves the total as it was. */
  lemma RemoveAbsentRefKeepsTotal(m: RefMap, id: BlockId, nonce: RefNonce)
    requires !HasRef(m, Ref(id, nonce))
    ensures TotalRefs(RemoveRef(m, id, nonce)) == TotalRefs(m)
  {
    var m' := RemoveRef(m, id, nonce);
    TotalRefsSplit(m, id);
    TotalRefsSplit(m', id);
    assert m'.Keys - {id} == m.Keys - {id};
    SumRefsFrame(m, m', m.Keys - {id});
  }

  /** Adding a new nonce raises the total by exactly one. */
  lemma AddRefIncrements(m: RefMap, id: BlockId, nonce: RefNonce, status: RefStatus)
    requires !HasRef(m, Ref(id, nonce))
    ensures TotalRefs(AddRef(m, id, nonce, status)) == TotalRefs(m) + 1
  {
    var m' := AddRef(m, id, nonce, status);
    TotalRefsSplit(m, id);
    TotalRefsSplit(m', id);
    assert m'.Keys - {id} == m.Keys - {id};
    SumRefsFrame(m, m', m.Keys - {id});
  }

  /** Removing a nonce that was just added to a well-formed map gives the map back. */
  lemma AddThenRemoveRef(m: RefMap, id: BlockId, nonce: RefNonce, status: RefStatus)
    requires NoEmptyEntries(m) && !HasRef(m, Ref(id, nonce))
    ensures RemoveRef(AddRef(m, id, nonce, status), id, nonce) == m
  {
    if id in m {
      assert AddRef(m, id, nonce, status) == m[id := m[id][nonce := status]];
      RemoveAddedToPresentBlock(m, id, nonce, status);
    } else {
      assert AddRef(m, id, nonce, status) == m[id := map[nonce := status]];
      RemoveAddedToAbsentBlock(m, id, nonce, status);
    }
  }

  lemma RemoveAddedToPresentBlock(m: RefMap, id: BlockId, nonce: RefNonce, status: RefStatus)
    requires id in m && m[id] != map[] && nonce !in m[id]
    ensures RemoveRef(m[id := m[id][nonce := status]], id, nonce) == m
  {
    var a := m[id := m[id][nonce := status]];
    UpdateThenRemove(m[id], nonce, status);
    assert RemoveRef(a, id, nonce) == a[id := m[id]];
    assert a[id := m[id]] == m;
  }

  lemma RemoveAddedToAbsentBlock(m: RefMap, id: BlockId, nonce: RefNonce, status: RefStatus)
    requires id !in m
    ensures RemoveRef(m[id := map[nonce := status]], id, nonce) == m
  {
    var a := m[id := map[nonce := status]];
    assert map[nonce := status] - {nonce} == map[];
    assert RemoveRef(a, id, nonce) == a - {id};
    assert a - {id} == m;
  }

  lemma UpdateThenRemove<K, V>(inner: map<K, V>, k: K, v: V)
    requires k !in inner
    ensures inner[k := v] - {k} == inner
  {
  }

  /** Storing a block that was not there yet leaves it with exactly one reference. */
  lemma StoreFreshBlockOneRef(m: RefMap, id: BlockId, nonce: RefNonce, status: RefStatus)
    requires id !in m
    ensures |AddRef(m, id, nonce, status)[id]| == 1
    ensures AtMostOneRefEach(m) ==> AtMostOneRefEach(AddRef(m, id, nonce, status))
  {
  }

  /**
   * totalBlockRefs: adds up the size of every block's nonce map. The blocks are
   * visited in an arbitrary order, as Go's range over a map does.
   */
  method TotalBlockRefs(m: RefMap) returns (n: nat)
    ensures n == TotalRefs(m)
  {
    n := 0;
    var left := m.Keys;
    while left != {}
      invariant left <= m.Keys
      invariant n + SumRefs(m, left) == TotalRefs(m)
      decreases left
    {
      var id :| id in left;
      SumRefsPick(m, left, id);
      n := n + |m[id]|;
      left := left - {id};
    }
  }
}
