/**
  What holds of the allocator whatever fails.  Failing calls leave debris behind: live handles that no
  record owns, mapped pieces and reservations without an allocation, records without a reservation.
  The allocations in good standing are a part of the state for which the invariant of `AllocatorState`
  holds, and every operation keeps it so, at most with fewer allocations in it.
 */
module AllocatorFailures {
  import opened ChunkArithmetic
  import opened AllocatorState
  import opened Basics

  /** The driver calls that can fail, with the address or handle they were about where that matters. */
  datatype Call =
    | Context | Granularity | Create | Map | Unmap(addr: nat) | Release(handle: nat) | Access | Reserve | FreeRange

  /** This call has failed between two logs of failed calls. */
  ghost predicate FailedSince(before: seq<Call>, after: seq<Call>, call: Call) {
    exists i :: |before| <= i < |after| && after[i] == call
  }

  /** What failed in between has also failed over a longer time. */
  lemma FailedWider(f0: seq<Call>, f1: seq<Call>, f2: seq<Call>, f3: seq<Call>, call: Call)
    requires f0 <= f1 && f2 <= f3 && FailedSince(f1, f2, call)
    ensures FailedSince(f0, f3, call)
  {
    var i :| |f1| <= i < |f2| && f2[i] == call;
    assert f3[i] == call;
  }

  /** No call to unmap, or none to release, has failed between two logs. */
  ghost predicate NoUnmapFailed(before: seq<Call>, after: seq<Call>) {
    before <= after && forall i :: |before| <= i < |after| ==> !after[i].Unmap?
  }

  ghost predicate NoReleaseFailed(before: seq<Call>, after: seq<Call>) {
    before <= after && forall i :: |before| <= i < |after| ==> !after[i].Release?
  }

  /** Between two logs of failed calls, none but calls about the context have failed. */
  ghost predicate OnlyContext(before: seq<Call>, after: seq<Call>) {
    before <= after && forall i :: |before| <= i < |after| ==> after[i] == Context
  }

  /** With the error code clear, nothing has failed but possibly the call that grants access. */
  predicate Complete(error: int, before: seq<Call>, after: seq<Call>) {
    error == 0 && (after == before || after == before + [Access])
  }

  /** An error was pending or comes from the context, and nothing else has failed. */
  ghost predicate Stale(error: int, before: seq<Call>, after: seq<Call>) {
    OnlyContext(before, after) && (error != 0 || after != before)
  }

  /** Exactly one call has failed: one to create or to map a chunk. */
  predicate OneChunkFailed(before: seq<Call>, after: seq<Call>) {
    after == before + [Create] || after == before + [Map]
  }

  /** What later failures say about earlier ones, when the earlier ones are about the context. */
  lemma ContextFirst(before: seq<Call>, mid: seq<Call>, after: seq<Call>)
    requires OnlyContext(before, mid) && mid <= after
    ensures before <= after && (OnlyContext(before, after) <==> OnlyContext(mid, after))
    ensures |after| == |before| + 1 && after[|before|] != Context ==> mid == before
    ensures OneChunkFailed(before, after) || after == before + [Access] || after == before + [FreeRange] ==>
              mid == before
  {
    if |before| < |mid| {
      assert mid[|before|] == Context && after[|before|] == Context;
    }
    if OnlyContext(mid, after) {
      forall i | |before| <= i < |after| ensures after[i] == Context {
        assert i < |mid| ==> after[i] == mid[i];
      }
    }
  }

  /** What a log says that ends with a failure to free a range. */
  lemma FreeRangeLast(before: seq<Call>, mid: seq<Call>, after: seq<Call>)
    requires before <= mid && after == mid + [FreeRange]
    ensures before <= after && !OneChunkFailed(before, after) && !OnlyContext(before, after)
    ensures after != before && after != before + [Access]
    ensures after == before + [Access] + [FreeRange] ==> mid == before + [Access]
    ensures after == before + [FreeRange] ==> mid == before
  {
    assert after[|mid|] == FreeRange;
    if after == before + [Access] + [FreeRange] {
      assert mid == after[..|mid|] == before + [Access];
    }
    if after == before + [FreeRange] {
      assert mid == after[..|mid|] == before;
    }
  }

  // ----- A part in good standing

  ghost predicate SubMap<V(!new)>(m: map<nat, V>, n: map<nat, V>) {
    forall k :: k in m ==> k in n && m[k] == n[k]
  }

  ghost predicate Part(c: State, s: State) {
    SubMap(c.live, s.live) && SubMap(c.mapped, s.mapped) && SubMap(c.reserved, s.reserved) && SubMap(c.table, s.table)
  }

  predicate Within(reserved: map<nat, nat>, e: nat, a: nat) { e in reserved && e <= a < e + reserved[e] }

  /** A mapped piece outside the good part lies in a reservation outside of it. */
  ghost predicate Stray(c: State, s: State, a: nat) {
    a in s.mapped && a !in c.mapped ==>
      s.mapped[a].size > 0 && exists e :: e !in c.reserved && Within(s.reserved, e, a)
  }

  predicate Shaped(s: State, d: nat) { d in s.table ==> |s.table[d].handles| == |s.table[d].chunks| }

  /** The allocations of c are in good standing in s. */
  ghost predicate Holds(c: State, s: State) {
    && Inv(c) && Part(c, s)
    && (forall d, e :: Apart(s, d, e))
    && (forall a :: Stray(c, s, a))
    && (forall d :: Shaped(s, d))
  }

  lemma InitialHolds()
    ensures Holds(Initial, Initial)
  {
    InitialInv();
  }

  // ----- Fewer allocations

  ghost predicate StillOwnsHandle(c: State, gone: set<nat>, h: nat) {
    exists d :: d !in gone && OwnsHandle(c, d, h)
  }

  ghost predicate StillOwnsAddress(c: State, gone: set<nat>, a: nat) {
    exists d :: d !in gone && OwnsAddress(c, d, a)
  }

  /** The state without some allocations, all that is theirs included. */
  ghost function Without(c: State, gone: set<nat>): State {
    State(map h | h in c.live && StillOwnsHandle(c, gone, h) :: c.live[h],
          map a | a in c.mapped && StillOwnsAddress(c, gone, a) :: c.mapped[a],
          c.reserved - gone, c.table - gone, c.awake - gone)
  }

  lemma WithoutTables(c: State, gone: set<nat>)
    requires Tables(c)
    ensures Tables(Without(c, gone))
  {
    var t := Without(c, gone);
    forall d | d in t.table ensures Recorded(t, d) {
      assert Recorded(c, d);
    }
    forall d, e ensures Apart(t, d, e) {
      assert Apart(c, d, e);
    }
  }

  lemma WithoutBacked(c: State, gone: set<nat>, d: nat)
    requires Inv(c) && d in c.awake && d !in gone
    ensures Backed(Without(c, gone), d)
  {
    var t := Without(c, gone);
    assert Backed(c, d);
    assert Recorded(t, d);
    forall i | 0 <= i < |t.table[d].handles| ensures SizedAt(t.live, t.table[d].handles, t.table[d].chunks, i) {
      assert SizedAt(c.live, c.table[d].handles, c.table[d].chunks, i);
      assert OwnsHandle(c, d, c.table[d].handles[i]);
    }
    forall a | a in Addresses(d, t.table[d].chunks) ensures a in t.mapped && t.mapped[a] == c.mapped[a] {
      assert OwnsAddress(c, d, a);
    }
  }

  lemma WithoutHandle(c: State, gone: set<nat>, h: nat)
    requires Inv(c)
    ensures HandleOwned(Without(c, gone), h)
  {
    var t := Without(c, gone);
    assert HandleOwned(c, h);
    forall d ensures OwnsHandle(t, d, h) <==> OwnsHandle(c, d, h) && d !in gone { }
    if h in t.live {
      var d :| d !in gone && OwnsHandle(c, d, h);
      assert OwnsHandle(t, d, h);
    }
  }

  lemma WithoutAddress(c: State, gone: set<nat>, a: nat)
    requires Inv(c)
    ensures AddressOwned(Without(c, gone), a)
  {
    var t := Without(c, gone);
    assert AddressOwned(c, a);
    forall d ensures OwnsAddress(t, d, a) <==> OwnsAddress(c, d, a) && d !in gone { }
    if a in t.mapped {
      var d :| d !in gone && OwnsAddress(c, d, a);
      assert OwnsAddress(t, d, a);
    }
  }

  /** The remaining allocations are none the worse. */
  lemma WithoutInv(c: State, gone: set<nat>)
    requires Inv(c)
    ensures Inv(Without(c, gone))
  {
    var t := Without(c, gone);
    WithoutTables(c, gone);
    forall d | d in t.awake ensures Backed(t, d) { WithoutBacked(c, gone, d); }
    forall h ensures HandleOwned(t, h) { WithoutHandle(c, gone, h); }
    forall a ensures AddressOwned(t, a) { WithoutAddress(c, gone, a); }
  }

  /** A mapped piece is an old one, or lies in a reservation of nobody in good standing any more. */
  ghost predicate OldOrStray(c: State, gone: set<nat>, s: State, t: State, a: nat) {
    a in t.mapped ==>
      || (a in s.mapped && t.mapped[a] == s.mapped[a])
      || (t.mapped[a].size > 0 && exists e :: (e !in c.reserved || e in gone) && Within(t.reserved, e, a))
  }

  /** When some allocations are given up, the others stay in good standing. */
  lemma GiveUp(c: State, s: State, gone: set<nat>, t: State)
    requires Holds(c, s) && Part(Without(c, gone), t) && t.reserved == s.reserved
    requires forall d :: Shaped(t, d)
    requires forall a :: OldOrStray(c, gone, s, t, a)
    ensures Holds(Without(c, gone), t)
  {
    WithoutInv(c, gone);
    forall d, e ensures Apart(t, d, e) {
      assert Apart(s, d, e);
    }
    forall a ensures Stray(Without(c, gone), t, a) {
      GiveUpPiece(c, s, gone, t, a);
    }
  }

  lemma GiveUpPiece(c: State, s: State, gone: set<nat>, t: State, a: nat)
    requires Inv(c) && Part(c, s) && t.reserved == s.reserved && Stray(c, s, a) && OldOrStray(c, gone, s, t, a)
    ensures Stray(Without(c, gone), t, a)
  {
    if a in t.mapped && a !in Without(c, gone).mapped {
      if a in s.mapped && t.mapped[a] == s.mapped[a] {
        if a in c.mapped {
          assert AddressOwned(c, a);
          var d :| OwnsAddress(c, d, a);
          AddressInside(c, d, a);
          assert Within(t.reserved, d, a);
        } else {
          var e :| e !in c.reserved && Within(s.reserved, e, a);
          assert Within(t.reserved, e, a);
        }
      }
    }
  }

  // ----- What unmapping and releasing can do to others

  /** The awake allocations that own one of these handles or are mapped at one of these addresses. */
  ghost function Harmed(c: State, base: nat, chunks: seq<nat>, handles: seq<nat>): set<nat> {
    set d | d in c.awake && Hit(c, d, base, chunks, handles)
  }

  ghost predicate Hit(c: State, d: nat, base: nat, chunks: seq<nat>, handles: seq<nat>) {
    || (exists h :: h in handles && OwnsHandle(c, d, h))
    || (exists a :: a in Addresses(base, chunks) && OwnsAddress(c, d, a))
  }

  /** An awake allocation harms nobody but itself. */
  lemma HarmsItself(c: State, d: nat)
    requires Inv(c) && d in c.awake
    ensures d in c.table && Harmed(c, d, c.table[d].chunks, c.table[d].handles) == {d}
  {
    assert Backed(c, d);
    var chunks, handles := c.table[d].chunks, c.table[d].handles;
    FirstAddress(d, chunks);
    assert OwnsAddress(c, d, d);
    forall e | e in Harmed(c, d, chunks, handles) ensures e == d {
      if h :| h in handles && OwnsHandle(c, e, h) {
        assert HandleOwned(c, h) && OwnsHandle(c, d, h);
      } else {
        var a :| a in Addresses(d, chunks) && OwnsAddress(c, e, a);
        assert Recorded(c, e) && Apart(c, d, e);
        OtherAddresses(c, d, e, a);
      }
    }
  }

  /** The pieces at some of the addresses and some of the handles are gone. */
  ghost predicate Lessened(s: State, t: State, base: nat, chunks: seq<nat>, handles: seq<nat>) {
    && SubMap(t.live, s.live) && (forall h :: h in s.live && h !in handles ==> h in t.live)
    && SubMap(t.mapped, s.mapped)
    && (forall a :: a in s.mapped && a !in Addresses(base, chunks) ==> a in t.mapped)
    && t.reserved == s.reserved && t.table == s.table
  }

  /** An allocation has lost a handle or a mapped piece. */
  ghost predicate Broken(c: State, t: State, e: nat) {
    || (exists h :: OwnsHandle(c, e, h) && h !in t.live)
    || (exists a :: OwnsAddress(c, e, a) && a !in t.mapped)
  }

  /** The awake allocations that have lost something in t. */
  ghost function Damaged(c: State, t: State): set<nat> {
    set e | e in c.awake && Broken(c, t, e)
  }

  /** Something is gone, and nothing else has changed. */
  ghost predicate Fewer(s: State, t: State) {
    SubMap(t.live, s.live) && SubMap(t.mapped, s.mapped) && t.reserved == s.reserved && t.table == s.table
  }

  /** Whatever is gone, the allocations that have lost nothing stay in good standing. */
  lemma UndamagedHolds(c: State, s: State, t: State)
    requires Holds(c, s) && Fewer(s, t)
    ensures Holds(Without(c, Damaged(c, t)), t)
  {
    var gone := Damaged(c, t);
    var rest := Without(c, gone);
    forall h | h in rest.live ensures h in t.live && rest.live[h] == t.live[h] {
      var d :| d !in gone && OwnsHandle(c, d, h);
    }
    forall a | a in rest.mapped ensures a in t.mapped && rest.mapped[a] == t.mapped[a] {
      var d :| d !in gone && OwnsAddress(c, d, a);
    }
    forall d ensures Shaped(t, d) {
      assert Shaped(s, d);
    }
    GiveUp(c, s, gone, t);
  }

  /** An awake allocation in good standing holds every handle and every piece that its record names. */
  lemma AwakeHoldsAll(c: State, s: State, e: nat)
    requires Holds(c, s) && e in c.awake
    ensures e in s.table && c.table[e] == s.table[e]
    ensures forall h :: h in s.table[e].handles ==> h in s.live
    ensures forall a :: a in Addresses(e, s.table[e].chunks) ==> a in s.mapped
  {
    assert Backed(c, e);
    forall h | h in s.table[e].handles ensures h in s.live {
      assert HandleOwned(c, h) && OwnsHandle(c, e, h);
    }
  }

  /** No allocation that has lost something can be awake in good standing, whatever part one looks at. */
  lemma DamagedIsLost(c: State, s: State, t: State, e: nat, c': State)
    requires Holds(c, s) && t.table == s.table && e in Damaged(c, t) && Holds(c', t)
    ensures e !in c'.awake
  {
    AwakeHoldsAll(c, s, e);
    if e in c'.awake {
      AwakeHoldsAll(c', t, e);
    }
  }

  /** When something is gone, an awake allocation can stay awake in good standing exactly if it has lost nothing. */
  lemma StaysAwakeIff(c: State, s: State, t: State, e: nat)
    requires Holds(c, s) && Fewer(s, t) && e in c.awake
    ensures (exists c' :: Holds(c', t) && e in c'.awake) <==> e !in Damaged(c, t)
  {
    if e !in Damaged(c, t) {
      UndamagedHolds(c, s, t);
      assert e in Without(c, Damaged(c, t)).awake;
    } else {
      forall c' | Holds(c', t) ensures e !in c'.awake {
        DamagedIsLost(c, s, t, e, c');
      }
    }
  }

  /** Whatever part of it succeeds, unmapping and releasing damages only those it hits. */
  lemma OnlyHarmed(c: State, s: State, t: State, base: nat, chunks: seq<nat>, handles: seq<nat>)
    requires Holds(c, s) && Lessened(s, t, base, chunks, handles)
    ensures Damaged(c, t) <= Harmed(c, base, chunks, handles)
  {
    forall e | e in Damaged(c, t) ensures Hit(c, e, base, chunks, handles) {
      if h :| OwnsHandle(c, e, h) && h !in t.live {
        assert HandleOwned(c, h);
      } else {
        var a :| OwnsAddress(c, e, a) && a !in t.mapped;
        assert AddressOwned(c, a);
      }
    }
  }

  /** Unmapping this address, or releasing this handle, was tried, and has failed or done its work. */
  ghost predicate UnmapTried(f0: seq<Call>, f1: seq<Call>, before: map<nat, Mapping>, after: map<nat, Mapping>,
                             a: nat)
  {
    FailedSince(f0, f1, Unmap(a)) || (a in before && a !in after)
  }

  ghost predicate ReleaseTried(f0: seq<Call>, f1: seq<Call>, before: map<nat, nat>, after: map<nat, nat>, h: nat) {
    FailedSince(f0, f1, Release(h)) || (h in before && h !in after)
  }

  /** Everything was tried, going on after failures. */
  ghost predicate AllTried(f0: seq<Call>, f1: seq<Call>, s: State, t: State, base: nat, chunks: seq<nat>,
                           handles: seq<nat>)
  {
    && (forall a :: a in Addresses(base, chunks) ==> UnmapTried(f0, f1, s.mapped, t.mapped, a))
    && (forall h :: h in handles ==> ReleaseTried(f0, f1, s.live, t.live, h))
  }

  /** No call fails that is about something of an allocation in good standing. */
  ghost predicate NoLuck(f0: seq<Call>, f1: seq<Call>, c: State, base: nat, chunks: seq<nat>, handles: seq<nat>) {
    && (forall a :: a in Addresses(base, chunks) && a in c.mapped ==> !FailedSince(f0, f1, Unmap(a)))
    && (forall h :: h in handles && h in c.live ==> !FailedSince(f0, f1, Release(h)))
  }

  /** Unless a failure spares them, exactly those are damaged that the record hits. */
  lemma AllHarmed(f0: seq<Call>, f1: seq<Call>, c: State, s: State, t: State, base: nat, chunks: seq<nat>,
                  handles: seq<nat>)
    requires Holds(c, s) && Lessened(s, t, base, chunks, handles) && AllTried(f0, f1, s, t, base, chunks, handles)
    requires NoLuck(f0, f1, c, base, chunks, handles)
    ensures Damaged(c, t) == Harmed(c, base, chunks, handles)
  {
    OnlyHarmed(c, s, t, base, chunks, handles);
    forall e | e in Harmed(c, base, chunks, handles) ensures Broken(c, t, e) {
      if h :| h in handles && OwnsHandle(c, e, h) {
        assert HandleOwned(c, h) && ReleaseTried(f0, f1, s.live, t.live, h);
      } else {
        var a :| a in Addresses(base, chunks) && OwnsAddress(c, e, a);
        assert AddressOwned(c, a) && UnmapTried(f0, f1, s.mapped, t.mapped, a);
      }
    }
  }

  // ----- The operations on the part in good standing

  lemma SleepHolds(c: State, s: State, t: State, d: nat)
    requires Holds(c, s) && d in c.awake && d in c.table
    requires Lessened(s, t, d, c.table[d].chunks, c.table[d].handles)
    requires t.mapped == s.mapped - Addresses(d, c.table[d].chunks)
    ensures Holds(Asleep(c, d), t) && Performed(c, Op.Sleep(d), Asleep(c, d))
  {
    StepInv(c, Op.Sleep(d));
    forall a ensures Stray(Asleep(c, d), t, a) {
      assert Stray(c, s, a);
    }
    SameRest(s, t);
  }

  /** Apart and Shaped depend on reservations and records only. */
  lemma SameRest(s: State, t: State)
    requires (forall d, e :: Apart(s, d, e)) && (forall d :: Shaped(s, d))
    requires t.reserved == s.reserved && t.table == s.table
    ensures (forall d, e :: Apart(t, d, e)) && (forall d :: Shaped(t, d))
  {
    forall d, e ensures Apart(t, d, e) { assert Apart(s, d, e); }
    forall d ensures Shaped(t, d) { assert Shaped(s, d); }
  }

  /** The state with new handle cells in one record. */
  function Recelled(s: State, d: nat, handles: seq<nat>): State
    requires d in s.table
  {
    s.(table := s.table[d := s.table[d].(handles := handles)])
  }

  lemma RecelledRest(s: State, t: State, d: nat, handles: seq<nat>)
    requires (forall e, f :: Apart(s, e, f)) && (forall e :: Shaped(s, e))
    requires d in s.table && |handles| == |s.table[d].chunks|
    requires t.reserved == s.reserved && t.table == Recelled(s, d, handles).table
    ensures (forall e, f :: Apart(t, e, f)) && (forall e :: Shaped(t, e))
  {
    forall e, f ensures Apart(t, e, f) { assert Apart(s, e, f); }
    forall e ensures Shaped(t, e) { assert Shaped(s, e); }
  }

  lemma WakeHolds(c: State, s: State, t: State, d: nat, handles: seq<nat>)
    requires Holds(c, s) && d in c.table && d in s.table && |handles| == |c.table[d].chunks|
    requires Created(s.live, t.live, handles, c.table[d].chunks)
    requires Placed(s.mapped, t.mapped, d, c.table[d].chunks, handles)
    requires t.reserved == s.reserved && t.table == Recelled(s, d, handles).table
    ensures Performed(c, Op.Wake(d, handles), Awoken(c, d, handles)) && Holds(Awoken(c, d, handles), t)
  {
    var c' := Awoken(c, d, handles);
    assert c.mapped.Keys <= s.mapped.Keys;
    FreshCreated(c.live, handles, c.table[d].chunks);
    MappingIsWake(c, c', d, handles);
    forall a ensures Stray(c', t, a) {
      assert Stray(c, s, a);
    }
    assert s.table[d] == c.table[d];
    RecelledRest(s, t, d, handles);
    WakePart(c, s, t, d, handles);
  }

  lemma WakePart(c: State, s: State, t: State, d: nat, handles: seq<nat>)
    requires Part(c, s) && d in c.table && d in s.table && |handles| == |c.table[d].chunks|
    requires Created(s.live, t.live, handles, c.table[d].chunks)
    requires Placed(s.mapped, t.mapped, d, c.table[d].chunks, handles)
    requires t.reserved == s.reserved && t.table == Recelled(s, d, handles).table
    ensures Part(Awoken(c, d, handles), t)
  {
  }

  /** New cells for a sleeping allocation, possibly with handles leaked. */
  lemma RecellHolds(c: State, s: State, t: State, d: nat, handles: seq<nat>)
    requires Holds(c, s) && d in c.table && d in s.table && d !in c.awake && |handles| == |c.table[d].chunks|
    requires SubMap(s.live, t.live) && t.mapped == s.mapped && t.reserved == s.reserved
    requires t.table == Recelled(s, d, handles).table
    ensures Holds(Recelled(c, d, handles), t)
  {
    var c' := Recelled(c, d, handles);
    RecelledInv(c, d, handles);
    assert s.table[d] == c.table[d];
    RecelledRest(s, t, d, handles);
    forall a ensures Stray(c', t, a) {
      assert Stray(c, s, a);
    }
  }

  lemma RecelledInv(c: State, d: nat, handles: seq<nat>)
    requires Inv(c) && d in c.table && d !in c.awake && |handles| == |c.table[d].chunks|
    ensures Inv(Recelled(c, d, handles))
  {
    var c' := Recelled(c, d, handles);
    forall e | e in c.table ensures WellSized(c'.table[e]) && c'.table[e].size == c.table[e].size {
      assert Recorded(c, e);
    }
    SameTables(c, c');
    forall e | e in c.awake ensures e in c'.table && c'.table[e] == c.table[e] && Recorded(c', e) {
      assert Recorded(c, e);
    }
    SameOwners(c, c');
  }

  /** A new reservation without an allocation. */
  lemma ReserveHolds(c: State, s: State, d: nat, size: nat)
    requires Holds(c, s) && Reservable(s.reserved, d, size)
    ensures Holds(c, s.(reserved := s.reserved[d := size]))
  {
    var t := s.(reserved := s.reserved[d := size]);
    forall e, f ensures Apart(t, e, f) { assert Apart(s, e, f); }
    forall a ensures Stray(c, t, a) {
      assert Stray(c, s, a);
      if a in s.mapped && a !in c.mapped {
        var e :| e !in c.reserved && Within(s.reserved, e, a);
        assert Within(t.reserved, e, a);
      }
    }
    forall e ensures Shaped(t, e) { assert Shaped(s, e); }
  }

  /** A record of nobody in good standing comes or goes. */
  lemma RecordHolds(c: State, s: State, t: State, d: nat)
    requires Holds(c, s) && d !in c.table && t == s.(table := t.table)
    requires t.table == s.table - {d}
             || (d in t.table && t.table == s.table[d := t.table[d]] && |t.table[d].handles| == |t.table[d].chunks|)
    ensures Holds(c, t)
  {
    forall e, f ensures Apart(t, e, f) { assert Apart(s, e, f); }
    forall a ensures Stray(c, t, a) { assert Stray(c, s, a); }
    forall e ensures Shaped(t, e) { assert Shaped(s, e); }
  }

  /** A reservation of nobody in good standing is freed, with nothing mapped in it. */
  lemma FreeHolds(c: State, s: State, d: nat)
    requires Holds(c, s) && d in s.reserved && d !in c.reserved
    requires forall a :: a in s.mapped ==> !Overlap(a, s.mapped[a].size, d, s.reserved[d])
    ensures Holds(c, s.(reserved := s.reserved - {d}))
  {
    var t := s.(reserved := s.reserved - {d});
    forall e, f ensures Apart(t, e, f) { assert Apart(s, e, f); }
    forall a ensures Stray(c, t, a) {
      assert Stray(c, s, a);
      if a in s.mapped && a !in c.mapped {
        var e :| e !in c.reserved && Within(s.reserved, e, a);
        assert e != d;
        assert Within(t.reserved, e, a);
      }
    }
    forall e ensures Shaped(t, e) { assert Shaped(s, e); }
  }

  /** A sleeping allocation leaves the good part. */
  lemma UnregisterHolds(c: State, s: State, d: nat)
    requires Holds(c, s) && d in c.table && d !in c.awake
    ensures Holds(Unregistered(c, d), s)
  {
    UnregisteredInv(c, d);
    forall a ensures Stray(Unregistered(c, d), s, a) {
      assert Stray(c, s, a);
    }
  }

  /** A new allocation in good standing, still asleep. */
  lemma RegisterHolds(c: State, s: State, d: nat, a: Allocation)
    requires Holds(c, s) && WellSized(a) && Reservable(s.reserved, d, a.size)
    ensures Holds(Registered(c, d, a), Registered(s, d, a))
  {
    var t := Registered(s, d, a);
    assert Reservable(c.reserved, d, a.size);
    RegisteredInv(c, d, a);
    forall b ensures Stray(Registered(c, d, a), t, b) {
      RegisterStray(c, s, d, a, b);
    }
    forall e, f ensures Apart(t, e, f) { assert Apart(s, e, f); }
    forall e ensures Shaped(t, e) { assert Shaped(s, e); }
  }

  lemma RegisterStray(c: State, s: State, d: nat, a: Allocation, b: nat)
    requires Stray(c, s, b) && d !in s.reserved
    ensures Stray(Registered(c, d, a), Registered(s, d, a), b)
  {
    if b in s.mapped && b !in c.mapped {
      var e :| e !in c.reserved && Within(s.reserved, e, b);
      assert Within(Registered(s, d, a).reserved, e, b);
    }
  }

  /** A successful allocation. */
  lemma MallocHolds(c: State, s: State, t: State, d: nat)
    requires Holds(c, s) && d in t.table && WellSized(t.table[d]) && Reservable(s.reserved, d, t.table[d].size)
    requires t.table == s.table[d := t.table[d]] && t.reserved == s.reserved[d := t.table[d].size]
    requires Created(s.live, t.live, t.table[d].handles, t.table[d].chunks)
    requires Placed(s.mapped, t.mapped, d, t.table[d].chunks, t.table[d].handles)
    ensures Can(c, Op.Malloc(d, t.table[d])) && Holds(Do(c, Op.Malloc(d, t.table[d])), t)
    ensures Performed(c, Op.Malloc(d, t.table[d]), Do(c, Op.Malloc(d, t.table[d])))
  {
    var a := t.table[d];
    PartCanMalloc(c, s, d, a);
    StepInv(c, Op.Malloc(d, a));
    RegisterHolds(c, s, d, a);
    WakeRegistered(Registered(c, d, a), Registered(s, d, a), t, d, a);
  }

  lemma PartCanMalloc(c: State, s: State, d: nat, a: Allocation)
    requires Part(c, s) && WellSized(a) && Reservable(s.reserved, d, a.size)
    requires Distinct(a.handles) && (forall i :: 0 <= i < |a.handles| ==> a.handles[i] !in s.live)
    ensures Can(c, Op.Malloc(d, a))
  {
  }

  lemma WakeRegistered(c: State, s: State, t: State, d: nat, a: Allocation)
    requires Holds(c, s) && WellSized(a) && d in c.table && d in s.table && c.table[d] == a && s.table[d] == a
    requires Created(s.live, t.live, a.handles, a.chunks) && Placed(s.mapped, t.mapped, d, a.chunks, a.handles)
    requires t.reserved == s.reserved && t.table == s.table
    ensures Holds(Awoken(c, d, a.handles), t)
  {
    assert Recelled(s, d, a.handles).table == s.table;
    WakeHolds(c, s, t, d, a.handles);
  }

  /** Debris is added in reservations of nobody in good standing. */
  lemma DebrisHolds(c: State, s: State, t: State)
    requires Holds(c, s) && SubMap(s.live, t.live) && SubMap(s.mapped, t.mapped)
    requires t.reserved == s.reserved && t.table == s.table
    requires forall a :: OldOrStray(c, {}, s, t, a)
    ensures Holds(c, t)
  {
    forall a ensures Stray(c, t, a) {
      assert Stray(c, s, a) && OldOrStray(c, {}, s, t, a);
    }
    SameRest(s, t);
  }

  // ----- What becomes of the good part

  /**
    The good part after sleeping.  An awake allocation of which nothing is mapped any more is asleep, even
    if a handle of it has leaked; otherwise those that have lost something are given up.
   */
  ghost function AfterSleep(c: State, d: nat, s: State, t: State): State {
    if d in c.awake && d in c.table && t.mapped == s.mapped - Addresses(d, c.table[d].chunks) then Asleep(c, d)
    else Without(c, Damaged(c, t))
  }

  lemma AfterSleepHolds(c: State, s: State, t: State, d: nat)
    requires Holds(c, s) && d in s.table && Lessened(s, t, d, s.table[d].chunks, s.table[d].handles)
    ensures Holds(AfterSleep(c, d, s, t), t)
    ensures d in c.awake && t.mapped == s.mapped - Addresses(d, s.table[d].chunks) ==>
              Performed(c, Op.Sleep(d), AfterSleep(c, d, s, t))
    ensures d in c.awake ==> Harmed(c, d, s.table[d].chunks, s.table[d].handles) == {d}
    ensures Damaged(c, t) <= Harmed(c, d, s.table[d].chunks, s.table[d].handles)
  {
    if d in c.awake {
      assert c.table[d] == s.table[d];
      HarmsItself(c, d);
    }
    OnlyHarmed(c, s, t, d, s.table[d].chunks, s.table[d].handles);
    if d in c.awake && t.mapped == s.mapped - Addresses(d, c.table[d].chunks) {
      SleepHolds(c, s, t, d);
    } else {
      UndamagedHolds(c, s, t);
    }
  }

  /** Of the others, exactly those that have lost something are no longer awake. */
  lemma AfterSleepOthers(c: State, s: State, t: State, d: nat, e: nat)
    requires Holds(c, s) && d in s.table && Lessened(s, t, d, s.table[d].chunks, s.table[d].handles)
    requires e in c.awake && e != d
    ensures e in AfterSleep(c, d, s, t).awake <==> e !in Damaged(c, t)
  {
    AfterSleepHolds(c, s, t, d);
  }

  /** An allocation leaves the good part. */
  ghost function Removed(c: State, d: nat): State {
    if d !in c.table then c else if d in c.awake then Without(c, {d}) else Unregistered(c, d)
  }

  lemma RemovedHolds(c: State, s: State, d: nat)
    requires Holds(c, s)
    ensures Holds(Removed(c, d), s) && d !in Removed(c, d).table && d !in Removed(c, d).reserved
  {
    if d in c.awake {
      forall a ensures OldOrStray(c, {d}, s, s, a) { }
      GiveUp(c, s, {d}, s);
    } else if d in c.table {
      UnregisterHolds(c, s, d);
    }
  }

  /** The good part after freeing: what it would be after sleeping, without the allocation. */
  ghost function AfterFree(c: State, d: nat, s: State, t: State): State {
    Removed(AfterSleep(c, d, s, t), d)
  }

  /** The address range is still reserved, or free with nothing mapped in it. */
  ghost predicate FreedOrNot(before: State, after: State, d: nat) {
    || after.reserved == before.reserved
    || (d in before.reserved && after.reserved == before.reserved - {d}
        && forall a :: a in after.mapped ==> !Overlap(a, after.mapped[a].size, d, before.reserved[d]))
  }

  lemma AfterFreeHolds(c: State, s: State, m: State, t: State, d: nat)
    requires Holds(c, s) && d in s.table && Lessened(s, m, d, s.table[d].chunks, s.table[d].handles)
    requires FreedOrNot(m, t, d) && t == m.(reserved := t.reserved, table := m.table - {d})
    ensures Holds(AfterFree(c, d, s, t), t)
  {
    AfterSleepHolds(c, s, m, d);
    SameAfterSleep(c, d, s, m, t);
    RemovedHolds(AfterSleep(c, d, s, m), m, d);
    ForgetHolds(AfterFree(c, d, s, t), m, t, d);
  }

  /** What becomes of the good part is decided by handles and mappings. */
  lemma SameAfterSleep(c: State, d: nat, s: State, m: State, t: State)
    requires m.live == t.live && m.mapped == t.mapped
    ensures AfterSleep(c, d, s, m) == AfterSleep(c, d, s, t) && Damaged(c, m) == Damaged(c, t)
  {
    forall e ensures Broken(c, m, e) <==> Broken(c, t, e) { }
    assert Damaged(c, m) == Damaged(c, t);
  }

  lemma AfterFreePerforms(c: State, s: State, t: State, d: nat)
    requires Holds(c, s) && d in s.table && d in c.awake && t.mapped == s.mapped - Addresses(d, s.table[d].chunks)
    ensures Performed(c, Op.Free(d), AfterFree(c, d, s, t))
  {
    assert Backed(c, d) && c.table[d] == s.table[d];
    StepInv(c, Op.Free(d));
  }

  lemma ForgetHolds(c: State, m: State, t: State, d: nat)
    requires Holds(c, m) && d !in c.table && d !in c.reserved
    requires FreedOrNot(m, t, d) && t == m.(reserved := t.reserved, table := m.table - {d})
    ensures Holds(c, t)
  {
    var n := m.(table := m.table - {d});
    RecordHolds(c, m, n, d);
    if t.reserved == m.reserved {
      assert t == n;
    } else {
      FreeHolds(c, n, d);
    }
  }

  /** The pieces that an attempt to map adds: at the addresses of the chunks, inside some reservation. */
  ghost predicate NewPiece(before: map<nat, Mapping>, after: map<nat, Mapping>, reserved: map<nat, nat>,
                           base: nat, chunks: seq<nat>, a: nat)
  {
    a in after && a !in before ==>
      a in Addresses(base, chunks) && after[a].size > 0 && exists e :: Within(reserved, e, a)
  }

  lemma OneMorePiece(before: map<nat, Mapping>, mid: map<nat, Mapping>, reserved: map<nat, nat>,
                     base: nat, chunks: seq<nat>, i: nat, handle: nat)
    requires i < |chunks| && SubMap(before, mid) && (forall a :: NewPiece(before, mid, reserved, base, chunks, a))
    requires var addr := base + Sum(chunks[..i]);
             addr !in mid && chunks[i] > 0 && exists e :: Within(reserved, e, addr)
    ensures var after := mid[base + Sum(chunks[..i]) := Mapping(chunks[i], handle)];
            SubMap(before, after) && forall a :: NewPiece(before, after, reserved, base, chunks, a)
  {
    var addr := base + Sum(chunks[..i]);
    var after := mid[addr := Mapping(chunks[i], handle)];
    assert addr in Addresses(base, chunks) by {
      AddressesOfPrefix(base, chunks, i + 1);
      assert chunks[..i + 1][..i] == chunks[..i];
    }
    forall a ensures NewPiece(before, after, reserved, base, chunks, a) {
      assert NewPiece(before, mid, reserved, base, chunks, a);
    }
  }

  /** Unmapping some of the pieces that an attempt has added. */
  lemma KeptPieces(before: map<nat, Mapping>, mid: map<nat, Mapping>, after: map<nat, Mapping>,
                   reserved: map<nat, nat>, base: nat, chunks: seq<nat>, part: set<nat>)
    requires SubMap(before, mid) && (forall a :: NewPiece(before, mid, reserved, base, chunks, a))
    requires part !! before.Keys && SubMap(after, mid) && (forall a :: a in mid && a !in part ==> a in after)
    ensures SubMap(before, after) && forall a :: NewPiece(before, after, reserved, base, chunks, a)
  {
    forall a ensures NewPiece(before, after, reserved, base, chunks, a) {
      assert NewPiece(before, mid, reserved, base, chunks, a);
    }
  }

  /** What an attempt to create and map leaves in any case. */
  ghost predicate Attempted(s: State, t: State, base: nat, chunks: seq<nat>) {
    && SubMap(s.live, t.live) && SubMap(s.mapped, t.mapped) && t.reserved == s.reserved
    && (forall a :: NewPiece(s.mapped, t.mapped, s.reserved, base, chunks, a))
  }

  /** The allocations into whose range one of the chunks would be mapped. */
  ghost function Touched(c: State, base: nat, chunks: seq<nat>): set<nat> {
    set d | d in c.table && exists a :: a in Addresses(base, chunks) && Within(c.reserved, d, a)
  }

  /**
    The good part after waking.  A complete mapping wakes the allocation up.  If nothing stays mapped, a
    sleeping allocation has new cells, and an awake one is given up when its cells are overwritten.  If
    something stays mapped, whoever has it in its range is given up.
   */
  ghost function AfterWake(c: State, s: State, t: State, d: nat, complete: bool): State
    requires d in s.table && d in t.table && (d in c.table ==> |t.table[d].handles| == |c.table[d].chunks|)
  {
    if d in c.table && complete then Awoken(c, d, t.table[d].handles)
    else if t.mapped == s.mapped then
      if d in c.awake then (if t.table[d] == s.table[d] then c else Without(c, {d}))
      else if d in c.table then Recelled(c, d, t.table[d].handles) else c
    else Without(c, if d in c.table then {d} else Touched(c, d, s.table[d].chunks))
  }

  lemma AfterWakeHolds(c: State, s: State, t: State, d: nat, complete: bool)
    requires Holds(c, s) && d in s.table && d in t.table && |t.table[d].handles| == |s.table[d].chunks|
    requires Attempted(s, t, d, s.table[d].chunks) && t.table == Recelled(s, d, t.table[d].handles).table
    requires d in c.awake ==> t.mapped == s.mapped && !complete
    requires complete ==> Created(s.live, t.live, t.table[d].handles, s.table[d].chunks)
                          && Placed(s.mapped, t.mapped, d, s.table[d].chunks, t.table[d].handles)
    ensures d in c.table ==> c.table[d] == s.table[d]
    ensures Holds(AfterWake(c, s, t, d, complete), t)
    ensures d in c.table && complete ==>
              Performed(c, Op.Wake(d, t.table[d].handles), AfterWake(c, s, t, d, complete))
  {
    if d in c.table && complete {
      WakeHolds(c, s, t, d, t.table[d].handles);
    } else if t.mapped == s.mapped {
      if d in c.awake {
        if t.table[d] == s.table[d] {
          assert t.table == s.table;
          DebrisHolds(c, s, t);
        } else {
          AbandonHolds(c, s, t, d, {d});
        }
      } else if d in c.table {
        RecellHolds(c, s, t, d, t.table[d].handles);
      } else {
        RecordHolds(c, s, s.(table := t.table), d);
        DebrisHolds(c, s.(table := t.table), t);
      }
    } else {
      AbandonHolds(c, s, t, d, if d in c.table then {d} else Touched(c, d, s.table[d].chunks));
    }
  }

  /** What an attempt leaves mapped lies in reservations of allocations that are given up. */
  lemma AbandonHolds(c: State, s: State, t: State, d: nat, gone: set<nat>)
    requires Holds(c, s) && d in s.table && d in t.table && |t.table[d].handles| == |s.table[d].chunks|
    requires Attempted(s, t, d, s.table[d].chunks) && t.table == Recelled(s, d, t.table[d].handles).table
    requires gone == if d in c.table then {d} else Touched(c, d, s.table[d].chunks)
    ensures Holds(Without(c, gone), t)
  {
    forall e ensures Shaped(t, e) { assert Shaped(s, e); }
    forall a ensures OldOrStray(c, gone, s, t, a) {
      assert NewPiece(s.mapped, t.mapped, s.reserved, d, s.table[d].chunks, a);
      if a in t.mapped && a !in s.mapped {
        NewPieceIsStray(c, s, d, gone, a);
      }
    }
    GiveUp(c, s, gone, t);
  }

  /** Reservations that are apart have no address in common. */
  lemma OneRange(s: State, d: nat, e: nat, a: nat)
    requires (forall x, y :: Apart(s, x, y)) && Within(s.reserved, d, a) && Within(s.reserved, e, a)
    ensures d == e
  {
    assert Apart(s, d, e);
  }

  lemma NewPieceIsStray(c: State, s: State, d: nat, gone: set<nat>, a: nat)
    requires Inv(c) && Part(c, s) && d in s.table && Shaped(s, d)
    requires gone == if d in c.table then {d} else Touched(c, d, s.table[d].chunks)
    requires a in Addresses(d, s.table[d].chunks) && exists e :: Within(s.reserved, e, a)
    ensures exists e :: (e !in c.reserved || e in gone) && Within(s.reserved, e, a)
  {
    if d in c.table {
      assert Recorded(c, d);
      var i := AddressIndex(d, c.table[d].chunks, c.table[d].handles, a);
      assert Within(s.reserved, d, a);
    } else {
      var e :| Within(s.reserved, e, a);
      if e in c.reserved {
        assert Within(c.reserved, e, a);
      }
    }
  }

  /** A failed allocation leaves the good part as it was. */
  lemma FailedMallocHolds(c: State, s: State, m: State, t: State, d: nat)
    requires Holds(c, s) && d in s.reserved && d !in c.reserved && d in m.table
    requires Attempted(s, m, d, m.table[d].chunks) && m.awake == s.awake
    requires m.table == s.table[d := m.table[d]] && |m.table[d].handles| == |m.table[d].chunks|
    requires Positive(m.table[d].chunks) && Sum(m.table[d].chunks) <= s.reserved[d]
    requires FreedOrNot(m, t, d) && t == m.(reserved := t.reserved)
    ensures Holds(c, t)
  {
    var n := s.(table := m.table);
    RecordHolds(c, s, n, d);
    forall a ensures OldOrStray(c, {}, n, m, a) {
      assert NewPiece(s.mapped, m.mapped, s.reserved, d, m.table[d].chunks, a);
      if a in m.mapped && a !in s.mapped {
        var i := AddressIndex(d, m.table[d].chunks, m.table[d].handles, a);
        assert Within(m.reserved, d, a);
      }
    }
    DebrisHolds(c, n, m);
    if t.reserved != m.reserved {
      FreeHolds(c, m, d);
    }
  }

  // ----- Stale cells

  lemma RunCons(s: State, op: Op, ops: seq<Op>)
    requires Can(s, op) && Legal(Do(s, op), ops)
    ensures Legal(s, [op] + ops) && Run(s, [op] + ops) == Run(Do(s, op), ops)
  {
    assert ([op] + ops)[0] == op && ([op] + ops)[1..] == ops;
  }

  /**
    The cells of a sleeping allocation may name the handle of another one.  When sleeping it once more
    releases them, that other allocation is mapped to memory it does not hold, and awake in good standing
    no longer.
   */
  lemma StaleCellsHarmOthers()
    ensures var a := Allocation(1, [1], [7]);
            var ops := [Op.Malloc(0, a)] + ([Op.Sleep(0)] + ([Op.Malloc(1, a)] + []));
            && Legal(Initial, ops)
            && var s := Run(Initial, ops);
            && s.table == map[0 := a, 1 := a] && s.awake == {1} && Harmed(s, 0, [1], [7]) == {1}
            && var t := s.(live := s.live - SetOf(s.table[0].handles));
            && 7 in s.live && 7 !in t.live && 1 in t.mapped && t.mapped[1].handle == 7
            && forall c :: Holds(c, t) ==> 1 !in c.awake
  {
    var a := Allocation(1, [1], [7]);
    assert Sum([1]) == 1 by { assert [1][..0] == []; }
    assert WellSized(a);
    var s1 := Do(Initial, Op.Malloc(0, a));
    var s2 := Do(s1, Op.Sleep(0));
    assert s2.live == map[];
    var s3 := Do(s2, Op.Malloc(1, a));
    RunCons(s2, Op.Malloc(1, a), []);
    RunCons(s1, Op.Sleep(0), [Op.Malloc(1, a)] + []);
    RunCons(Initial, Op.Malloc(0, a), [Op.Sleep(0)] + ([Op.Malloc(1, a)] + []));
    assert s3.awake == {1} && 7 in s3.table[1].handles && OwnsHandle(s3, 1, 7);
    assert Hit(s3, 1, 0, [1], [7]);
    assert s3.table == map[0 := a, 1 := a];
    assert s3.mapped[1] == Mapping(1, 7) by { assert [1][..0] == [] && [7][..0] == []; }
    var t := s3.(live := s3.live - SetOf([7]));
    assert 7 in SetOf([7]);
    forall c | Holds(c, t) ensures 1 !in c.awake {
      if 1 in c.awake {
        assert c.table[1] == a && OwnsHandle(c, 1, 7) && HandleOwned(c, 7);
      }
    }
  }

  // ----- Nothing has failed

  /** Everything there is belongs to the part in good standing. */
  ghost predicate Intact(c: State, s: State) { s == c.(awake := {}) }

  /** The driver then holds exactly what the awake allocations need, and nothing once everything is freed. */
  lemma IntactDriver(c: State, s: State)
    requires Inv(c) && Intact(c, s)
    ensures c.awake <= s.table.Keys && |s.live| == ChunkCount(s.table, c.awake)
    ensures SizeOf(s.live, s.live.Keys) == SizeOfAll(s.table, c.awake)
    ensures forall a :: a in s.mapped ==>
              s.mapped[a].handle in s.live && s.live[s.mapped[a].handle] == s.mapped[a].size
    ensures forall a, b :: a in s.mapped && b in s.mapped && a != b ==>
              a + s.mapped[a].size <= b || b + s.mapped[b].size <= a
    ensures s.table == map[] ==> s == Initial
  {
    LiveHandlesAreCounted(c);
    PhysicalMemoryAddsUp(c);
    forall a, b | a in s.mapped && b in s.mapped && a != b
      ensures a + s.mapped[a].size <= b || b + s.mapped[b].size <= a
    {
      MappedRangesAreApart(c, a, b);
    }
    forall a | a in s.mapped
      ensures s.mapped[a].handle in s.live && s.live[s.mapped[a].handle] == s.mapped[a].size
    {
      PiecesFitHandles(c, a, a);
    }
    if s.table == map[] { NothingAllocatedNothingHeld(c); }
  }
}
