/**
 * Quota reclamation as the folder block manager's tests observe it through
 * the block server's reference map.
 *
 * The reclamation engine itself (revision scanning, watermarks) is not part
 * of this model. A run is the abstract step the tests rely on: it removes
 * references that are still present and were unreferenced at least
 * `minUnrefAge` before the clock's `now`, at most `maxPerRun` of them, and as
 * many as that bound allows. When each reference was unreferenced comes in as
 * `unrefTimes`; which eligible references a run picks is left open.
 */
module QuotaReclamation {
  import opened DataTypes
  import opened BlockRefs
  import opened Server

  function Min(a: nat, b: nat): nat
  {
    if a <= b then a else b
  }

  /**
   * The references a run may remove at time `now`: those still present that
   * were unreferenced at least `minUnrefAge` earlier.
   */
  function Eligible(m: RefMap, unrefTimes: map<Ref, int>, now: int, minUnrefAge: nat): (e: set<Ref>)
    ensures forall r :: r in e ==> HasRef(m, r) && r in unrefTimes
  {
    set r | r in unrefTimes && HasRef(m, r) && now - unrefTimes[r] >= minUnrefAge
  }

  /** A reference that is old enough stays old enough as the clock moves on. */
  lemma EligibleGrowsWithTime(m: RefMap, unrefTimes: map<Ref, int>, now: int, later: int, minUnrefAge: nat)
    requires now <= later
    ensures Eligible(m, unrefTimes, now, minUnrefAge) <= Eligible(m, unrefTimes, later, minUnrefAge)
  {
  }

  /** The nonces of block `id` named in `gone`. */
  function GoneNonces(gone: set<Ref>, id: BlockId): set<RefNonce>
  {
    set g | g in gone && g.id == id :: g.nonce
  }

  /** The nonces of block `id` that are not in `gone`. */
  function KeptNonces(m: RefMap, id: BlockId, gone: set<Ref>): map<RefNonce, RefStatus>
    requires id in m
  {
    m[id] - GoneNonces(gone, id)
  }

  /** The map with the references in `gone` taken out, and blocks left without references dropped. */
  function Without(m: RefMap, gone: set<Ref>): (m': RefMap)
    ensures NoEmptyEntries(m')
  {
    map id | id in m && KeptNonces(m, id, gone) != map[] :: KeptNonces(m, id, gone)
  }

  /** A reference survives `Without` exactly when it was present and not taken out, with its status. */
  lemma WithoutHasRef(m: RefMap, gone: set<Ref>, r: Ref)
    ensures HasRef(Without(m, gone), r) <==> HasRef(m, r) && r !in gone
    ensures HasRef(Without(m, gone), r) ==> Without(m, gone)[r.id][r.nonce] == m[r.id][r.nonce]
  {
    if HasRef(m, r) && r !in gone {
      assert r.nonce in KeptNonces(m, r.id, gone);
    }
  }

  /** Taking nothing out of a map without empty entries gives the same map. */
  lemma WithoutNothing(m: RefMap)
    requires NoEmptyEntries(m)
    ensures Without(m, {}) == m
  {
    var m' := Without(m, {});
    forall id | id in m
      ensures id in m' && m'[id] == m[id]
    {
      assert KeptNonces(m, id, {}) == m[id];
    }
  }

  /** The nonces named in `gone + {r}` are those named in `gone`, plus `r`'s for its own block. */
  lemma GoneNoncesOneMore(gone: set<Ref>, r: Ref, id: BlockId)
    ensures GoneNonces(gone + {r}, id) == if id == r.id then GoneNonces(gone, id) + {r.nonce} else GoneNonces(gone, id)
  {
  }

  /** `WithoutOneMore` at a single block. */
  lemma WithoutOneMoreAt(m: RefMap, gone: set<Ref>, r: Ref, id: BlockId)
    ensures var lhs := RemoveRef(Without(m, gone), r.id, r.nonce);
      var rhs := Without(m, gone + {r});
      (id in lhs <==> id in rhs) && (id in lhs ==> lhs[id] == rhs[id])
  {
    GoneNoncesOneMore(gone, r, id);
    if id in m && id == r.id {
      assert KeptNonces(m, id, gone + {r}) == KeptNonces(m, id, gone) - {r.nonce};
    }
  }

  /** Removing one more reference from `Without(m, gone)` is `Without` of the larger set. */
  lemma WithoutOneMore(m: RefMap, gone: set<Ref>, r: Ref)
    ensures RemoveRef(Without(m, gone), r.id, r.nonce) == Without(m, gone + {r})
  {
    var lhs := RemoveRef(Without(m, gone), r.id, r.nonce);
    var rhs := Without(m, gone + {r});
    forall id | id in lhs || id in rhs
      ensures (id in lhs <==> id in rhs) && (id in lhs ==> lhs[id] == rhs[id])
    {
      WithoutOneMoreAt(m, gone, r, id);
    }
    assert lhs.Keys == rhs.Keys;
  }

  lemma GoneNoncesUnion(a: set<Ref>, b: set<Ref>, id: BlockId)
    ensures GoneNonces(a + b, id) == GoneNonces(a, id) + GoneNonces(b, id)
  {
  }

  /** `WithoutTwice` at a single block. */
  lemma WithoutTwiceAt(m: RefMap, a: set<Ref>, b: set<Ref>, id: BlockId)
    ensures var lhs := Without(Without(m, a), b);
      var rhs := Without(m, a + b);
      (id in lhs <==> id in rhs) && (id in lhs ==> lhs[id] == rhs[id])
  {
    GoneNoncesUnion(a, b, id);
    if id in m {
      var once := KeptNonces(m, id, a);
      assert KeptNonces(m, id, a + b) == once - GoneNonces(b, id);
      if once == map[] {
        assert once - GoneNonces(b, id) == map[];
      }
    }
  }

  /** Taking out `a` and then `b` is taking out `a + b` at once. */
  lemma WithoutTwice(m: RefMap, a: set<Ref>, b: set<Ref>)
    ensures Without(Without(m, a), b) == Without(m, a + b)
  {
    var lhs := Without(Without(m, a), b);
    var rhs := Without(m, a + b);
    forall id | id in lhs || id in rhs
      ensures (id in lhs <==> id in rhs) && (id in lhs ==> lhs[id] == rhs[id])
    {
      WithoutTwiceAt(m, a, b, id);
    }
    assert lhs.Keys == rhs.Keys;
  }

  /** After taking out `gone`, what is eligible is what was eligible, minus `gone`. */
  lemma EligibleWithout(m: RefMap, gone: set<Ref>, unrefTimes: map<Ref, int>, now: int, minUnrefAge: nat)
    ensures Eligible(Without(m, gone), unrefTimes, now, minUnrefAge) == Eligible(m, unrefTimes, now, minUnrefAge) - gone
  {
    var e := Eligible(m, unrefTimes, now, minUnrefAge);
    var e' := Eligible(Without(m, gone), unrefTimes, now, minUnrefAge);
    forall u | u in e'
      ensures u in e && u !in gone
    {
      WithoutHasRef(m, gone, u);
    }
    forall u | u in e && u !in gone
      ensures u in e'
    {
      WithoutHasRef(m, gone, u);
    }
  }

  /** Taking out a set of present references lowers the total by the size of the set. */
  lemma {:induction false} WithoutCount(m: RefMap, gone: set<Ref>)
    requires NoEmptyEntries(m)
    requires forall r :: r in gone ==> HasRef(m, r)
    ensures TotalRefs(Without(m, gone)) == TotalRefs(m) - |gone|
    decreases gone
  {
    if gone == {} {
      WithoutNothing(m);
    } else {
      var r :| r in gone;
      var rest := gone - {r};
      WithoutCount(m, rest);
      WithoutHasRef(m, rest, r);
      RemoveRefDecrements(Without(m, rest), r.id, r.nonce);
      WithoutOneMore(m, rest, r);
      assert rest + {r} == gone;
    }
  }

  /**
   * `m'` and `removed` are a possible outcome of one reclamation run on `m`:
   * only eligible references go, as many as the bound and the eligible set
   * allow, and nothing else changes.
   */
  ghost predicate IsRun(m: RefMap, m': RefMap, removed: set<Ref>,
                        unrefTimes: map<Ref, int>, now: int, minUnrefAge: nat, maxPerRun: nat): (b: bool)
    ensures b ==> |removed| <= maxPerRun && forall r :: r in removed ==> HasRef(m, r)
  {
    var eligible := Eligible(m, unrefTimes, now, minUnrefAge);
    && removed <= eligible
    && |removed| == Min(maxPerRun, |eligible|)
    && m' == Without(m, removed)
  }

  /** A run when nothing is old enough leaves the reference map exactly as it was. */
  lemma RunWithNothingEligibleChangesNothing(m: RefMap, m': RefMap, removed: set<Ref>,
                                            unrefTimes: map<Ref, int>, now: int, minUnrefAge: nat, maxPerRun: nat)
    requires NoEmptyEntries(m)
    requires IsRun(m, m', removed, unrefTimes, now, minUnrefAge, maxPerRun)
    requires forall r :: r in unrefTimes ==> now - unrefTimes[r] < minUnrefAge
    ensures m' == m
  {
    assert Eligible(m, unrefTimes, now, minUnrefAge) == {};
    WithoutNothing(m);
  }

  /** A run removes exactly as many references as it picked, never more than the bound. */
  lemma RunIsBounded(m: RefMap, m': RefMap, removed: set<Ref>,
                     unrefTimes: map<Ref, int>, now: int, minUnrefAge: nat, maxPerRun: nat)
    requires NoEmptyEntries(m)
    requires IsRun(m, m', removed, unrefTimes, now, minUnrefAge, maxPerRun)
    ensures TotalRefs(m') == TotalRefs(m) - |removed|
    ensures TotalRefs(m') >= TotalRefs(m) - maxPerRun
    ensures NoEmptyEntries(m')
  {
    WithoutCount(m, removed);
  }

  /**
   * With more than `maxPerRun + 1` references present before it, a single run
   * leaves more than one: the first run of a long history cannot finish it.
   */
  lemma OneRunLeavesMoreThanOne(m: RefMap, m': RefMap, removed: set<Ref>,
                                unrefTimes: map<Ref, int>, now: int, minUnrefAge: nat, maxPerRun: nat)
    requires NoEmptyEntries(m)
    requires IsRun(m, m', removed, unrefTimes, now, minUnrefAge, maxPerRun)
    requires TotalRefs(m) > maxPerRun + 1
    ensures TotalRefs(m') > 1
  {
    RunIsBounded(m, m', removed, unrefTimes, now, minUnrefAge, maxPerRun);
  }

  /** Once something is eligible and the bound is positive, a run strictly shrinks the total. */
  lemma RunShrinksWhenEligible(m: RefMap, m': RefMap, removed: set<Ref>,
                               unrefTimes: map<Ref, int>, now: int, minUnrefAge: nat, maxPerRun: nat)
    requires NoEmptyEntries(m)
    requires IsRun(m, m', removed, unrefTimes, now, minUnrefAge, maxPerRun)
    requires maxPerRun >= 1 && Eligible(m, unrefTimes, now, minUnrefAge) != {}
    ensures TotalRefs(m') < TotalRefs(m)
  {
    RunIsBounded(m, m', removed, unrefTimes, now, minUnrefAge, maxPerRun);
  }

  /** What a run leaves eligible is what was eligible, minus what it removed. */
  lemma RunKeepsTheRestEligible(m: RefMap, m': RefMap, removed: set<Ref>,
                                unrefTimes: map<Ref, int>, now: int, minUnrefAge: nat, maxPerRun: nat)
    requires IsRun(m, m', removed, unrefTimes, now, minUnrefAge, maxPerRun)
    ensures Eligible(m', unrefTimes, now, minUnrefAge) == Eligible(m, unrefTimes, now, minUnrefAge) - removed
    ensures |Eligible(m', unrefTimes, now, minUnrefAge)| == |Eligible(m, unrefTimes, now, minUnrefAge)| - |removed|
  {
    var e := Eligible(m, unrefTimes, now, minUnrefAge);
    EligibleWithout(m, removed, unrefTimes, now, minUnrefAge);
    CardinalityOfDifference(e, removed);
  }

  lemma CardinalityOfDifference<T>(e: set<T>, r: set<T>)
    requires r <= e
    ensures |e - r| == |e| - |r|
  {
    assert e == (e - r) + r;
  }

  /**
   * Moving the clock to `2 * minUnrefAge` past the time a present reference
   * was unreferenced makes it eligible.
   */
  lemma ClockAdvanceMakesEligible(m: RefMap, unrefTimes: map<Ref, int>, start: int, minUnrefAge: nat, r: Ref)
    requires HasRef(m, r) && r in unrefTimes && unrefTimes[r] <= start
    ensures r in Eligible(m, unrefTimes, start + 2 * minUnrefAge, minUnrefAge)
  {
  }

  /**
   * Takes references out of `refs`, picking from `candidates` in an arbitrary
   * order, until `maxPerRun` are gone or no candidate is left.
   */
  method RemoveBatch(refs: RefMap, candidates: set<Ref>, maxPerRun: nat) returns (refs': RefMap, removed: set<Ref>)
    requires NoEmptyEntries(refs)
    ensures removed <= candidates && |removed| == Min(maxPerRun, |candidates|)
    ensures refs' == Without(refs, removed)
  {
    refs' := refs;
    removed := {};
    var left := candidates;
    WithoutNothing(refs);
    while |removed| < maxPerRun && left != {}
      invariant removed !! left && removed + left == candidates
      invariant |removed| + |left| == |candidates|
      invariant |removed| <= maxPerRun
      invariant refs' == Without(refs, removed)
      decreases left
    {
      var r :| r in left;
      WithoutOneMore(refs, removed, r);
      refs' := RemoveRef(refs', r.id, r.nonce);
      removed := removed + {r};
      left := left - {r};
    }
  }

  /** One reclamation run against the block server's reference map. */
  method Run(server: BlockServer, unrefTimes: map<Ref, int>, now: int, minUnrefAge: nat, maxPerRun: nat)
    returns (removed: set<Ref>)
    requires server.Valid()
    modifies server
    ensures server.Valid()
    ensures IsRun(old(server.refs), server.refs, removed, unrefTimes, now, minUnrefAge, maxPerRun)
    ensures TotalRefs(server.refs) == TotalRefs(old(server.refs)) - |removed|
    ensures server.blocks == old(server.blocks) && server.calls == old(server.calls)
  {
    var candidates := Eligible(server.refs, unrefTimes, now, minUnrefAge);
    var refs;
    refs, removed := RemoveBatch(server.refs, candidates, maxPerRun);
    WithoutCount(server.refs, removed);
    server.refs := refs;
  }

  /**
   * The incremental-reclamation test's final loop: while more than one
   * reference is left, run again and recount; each run must shrink the count.
   * It ends when every reference but at most one was old enough to go, and
   * what it took out, `gone`, is only references that were eligible at the
   * start.
   */
  method RunUntilOneLeft(server: BlockServer, unrefTimes: map<Ref, int>, now: int, minUnrefAge: nat, maxPerRun: nat)
    returns (runs: nat, ghost gone: set<Ref>)
    requires server.Valid() && maxPerRun >= 1
    requires TotalRefs(server.refs) <= |Eligible(server.refs, unrefTimes, now, minUnrefAge)| + 1
    modifies server
    ensures server.Valid() && TotalRefs(server.refs) <= 1
    ensures gone <= Eligible(old(server.refs), unrefTimes, now, minUnrefAge)
    ensures server.refs == Without(old(server.refs), gone)
    ensures server.blocks == old(server.blocks) && server.calls == old(server.calls)
  {
    var b := TotalBlockRefs(server.refs);
    runs := 0;
    gone := {};
    WithoutNothing(server.refs);
    while b > 1
      invariant server.Valid()
      invariant b == TotalRefs(server.refs)
      invariant b <= |Eligible(server.refs, unrefTimes, now, minUnrefAge)| + 1
      invariant gone <= Eligible(old(server.refs), unrefTimes, now, minUnrefAge)
      invariant server.refs == Without(old(server.refs), gone)
      invariant server.blocks == old(server.blocks) && server.calls == old(server.calls)
      decreases b
    {
      ghost var before := server.refs;
      var removed := Run(server, unrefTimes, now, minUnrefAge, maxPerRun);
      RunKeepsTheRestEligible(before, server.refs, removed, unrefTimes, now, minUnrefAge, maxPerRun);
      EligibleWithout(old(server.refs), gone, unrefTimes, now, minUnrefAge);
      WithoutTwice(old(server.refs), gone, removed);
      gone := gone + removed;
      var oldB := b;
      b := TotalBlockRefs(server.refs);
      assert b < oldB;
      runs := runs + 1;
    }
  }

  /**
   * The simple reclamation test: right after references are unreferenced a
   * run deletes nothing, so the map is exactly as before; once the clock is
   * `2 * minUnrefAge` later, a run takes out some of the references that are
   * then old enough, and nothing else, and the total shrinks.
   */
  method SimpleScenario(server: BlockServer, unrefTimes: map<Ref, int>, now: int, minUnrefAge: nat, maxPerRun: nat, r: Ref)
    returns (removed1: set<Ref>, removed2: set<Ref>)
    requires server.Valid() && minUnrefAge >= 1 && maxPerRun >= 1
    requires forall u :: u in unrefTimes ==> unrefTimes[u] == now
    requires r in unrefTimes && HasRef(server.refs, r)
    modifies server
    ensures removed1 == {}
    ensures removed2 != {} && removed2 <= Eligible(old(server.refs), unrefTimes, now + 2 * minUnrefAge, minUnrefAge)
    ensures server.refs == Without(old(server.refs), removed2)
    ensures server.blocks == old(server.blocks) && server.calls == old(server.calls)
    ensures server.Valid() && TotalRefs(server.refs) < TotalRefs(old(server.refs))
  {
    ghost var preQR1 := server.refs;
    removed1 := Run(server, unrefTimes, now, minUnrefAge, maxPerRun);
    RunWithNothingEligibleChangesNothing(preQR1, server.refs, removed1, unrefTimes, now, minUnrefAge, maxPerRun);
    assert server.refs == preQR1;

    ghost var preQR2 := server.refs;
    var later := now + 2 * minUnrefAge;
    ClockAdvanceMakesEligible(preQR2, unrefTimes, now, minUnrefAge, r);
    removed2 := Run(server, unrefTimes, later, minUnrefAge, maxPerRun);
    RunShrinksWhenEligible(preQR2, server.refs, removed2, unrefTimes, later, minUnrefAge, maxPerRun);
  }
}
