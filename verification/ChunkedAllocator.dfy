/**
  The code of the ROCm allocator (repos/vllm/csrc/cumem_allocator.cpp) over a driver any of whose calls
  may fail, proved against the operations of `AllocatorState`, and over every failure against the
  invariant of `AllocatorFailures`.
 */
module ChunkedAllocator {
  import opened ChunkArithmetic
  import opened AllocatorState
  import opened AllocatorFailures

  /**
    The chunk sizes of an allocation, filled in by index.  If the rounding sum does not fit into 64
    bits, the number of chunks comes out as zero.
   */
  method ComputeChunks(alignedSize: nat, alignedChunkSize: nat) returns (sizes: array<nat>)
    requires alignedSize < U64 && 0 < alignedChunkSize < U64
    ensures fresh(sizes) && sizes[..] == ChunkSizes(alignedSize, alignedChunkSize)
  {
    var numChunks := Wrap(alignedSize + alignedChunkSize - 1) / alignedChunkSize;
    sizes := new nat[numChunks];
    ChunkCount64(alignedSize, alignedChunkSize);
    for i := 0 to numChunks
      invariant numChunks > 0 ==> numChunks == |Split(alignedSize, alignedChunkSize)|
      invariant forall j :: 0 <= j < i ==> sizes[j] == Split(alignedSize, alignedChunkSize)[j]
    {
      SplitAt(alignedSize, alignedChunkSize, i);
      var left := alignedSize - i * alignedChunkSize;
      sizes[i] := if left < alignedChunkSize then left else alignedChunkSize;
    }
  }

  /** The number of chunks in 64-bit arithmetic. */
  lemma ChunkCount64(total: nat, chunk: nat)
    requires total < U64 && 0 < chunk < U64
    ensures Wrap(total + chunk - 1) / chunk ==
            if total + chunk - 1 < U64 then |Split(total, chunk)| else 0
  {
    var sum := total + chunk - 1;
    var wrapped := WrapOnce(sum);
    SplitCount(total, chunk);
    if sum >= U64 {
      DivUnique(wrapped, chunk, 0);
    }
  }

  lemma WrapOnce(x: nat) returns (r: nat)
    requires x < 2 * U64
    ensures r == Wrap(x) == if x < U64 then x else x - U64
  {
    r := Wrap(x);
  }

  /** How an allocation ends; except for a refusal, with the address that was reserved. */
  datatype MallocResult =
    | Pointer(d: nat)
    | Refused
    | ZeroChunk(d: nat)       // the rounded-up chunk size is zero, and the size is divided by it
    | NoHostMemory(d: nat)
    | NotMapped(d: nat)

  /** Handles are created for a call that fails before any of them is used. */
  ghost predicate OneLeaked(before: map<nat, nat>, after: map<nat, nat>, handles: seq<nat>, chunks: seq<nat>) {
    handles != [] && chunks != [] && handles[0] !in before && after == before[handles[0] := chunks[0]]
  }

  class Allocator {
    // driver state
    var live: map<nat, nat>
    var mapped: map<nat, Mapping>
    var reserved: map<nat, nat>
    // the global error code of the C++ module, and the table of the Python side
    var errorCode: int
    var table: map<nat, Allocation>
    // the part of the state that is in good standing, the driver calls that have failed so far, and how
    // often the host had no memory
    ghost var core: State
    ghost var failed: seq<Call>
    ghost var hostFailures: nat
    // the handle cells on the host that have been allocated and not freed
    ghost var cells: int
    // the ranges to which access has been granted, in order
    ghost var grants: seq<(nat, nat)>

    /** The state; which allocations are awake is known of the good part alone. */
    ghost function St(): State
      reads this`live, this`mapped, this`reserved, this`table
    {
      State(live, mapped, reserved, table, {})
    }

    ghost predicate Valid()
      reads this`live, this`mapped, this`reserved, this`table, this`core
    {
      Holds(core, St())
    }

    constructor ()
      ensures St() == Initial && errorCode == 0 && core == Initial && failed == [] && Valid()
      ensures Intact(core, St())
    {
      live, mapped, reserved, errorCode, table, core, failed := map[], map[], map[], 0, map[], Initial, [];
      hostFailures, cells, grants := 0, 0, [];
      InitialHolds();
    }

    // ----- Driver calls, any of which may fail

    ghost function Logged(status: int, call: Call): seq<Call>
      reads this
    {
      if status == 0 then failed else failed + [call]
    }

    method MemCreate(size: nat) returns (status: int, handle: nat)
      modifies this`live, this`failed
      ensures failed == old(Logged(status, Create))
      ensures status == 0 ==> handle !in old(live) && live == old(live)[handle := size]
      ensures status != 0 ==> live == old(live)
    {
      status := *;
      handle := *;
      if status == 0 && handle in live {
        status := 1;
      }
      failed := Logged(status, Create);
      if status == 0 {
        live := live[handle := size];
      }
    }

    method MemMap(addr: nat, size: nat, handle: nat) returns (status: int)
      modifies this`mapped, this`failed
      ensures failed == old(Logged(status, Map))
      ensures status == 0 ==> addr !in old(mapped) && mapped == old(mapped)[addr := Mapping(size, handle)]
      ensures status == 0 ==> size > 0 && exists e :: Within(reserved, e, addr)
      ensures status != 0 ==> mapped == old(mapped)
    {
      status := *;
      if status == 0 && !(Mappable(mapped, reserved, addr, size) && handle in live) {
        status := 1;
      }
      failed := Logged(status, Map);
      if status == 0 {
        mapped := mapped[addr := Mapping(size, handle)];
        ghost var e: nat :| e in reserved && e <= addr && addr + size <= e + reserved[e];
        assert Within(reserved, e, addr);
      }
    }

    method MemUnmap(addr: nat, size: nat) returns (status: int)
      modifies this`mapped, this`failed
      ensures failed == old(Logged(status, Unmap(addr)))
      ensures status == 0 ==> addr in old(mapped) && old(mapped)[addr].size == size && mapped == old(mapped) - {addr}
      ensures status != 0 ==> mapped == old(mapped)
    {
      status := *;
      if status == 0 && !(addr in mapped && mapped[addr].size == size) {
        status := 1;
      }
      failed := Logged(status, Unmap(addr));
      if status == 0 {
        mapped := mapped - {addr};
      }
    }

    method MemRelease(handle: nat) returns (status: int)
      modifies this`live, this`failed
      ensures failed == old(Logged(status, Release(handle)))
      ensures status == 0 ==> handle in old(live) && live == old(live) - {handle}
      ensures status != 0 ==> live == old(live)
    {
      status := *;
      if status == 0 && handle !in live {
        status := 1;
      }
      failed := Logged(status, Release(handle));
      if status == 0 {
        live := live - {handle};
      }
    }

    method AddressReserve(size: nat) returns (status: int, addr: nat)
      modifies this`reserved, this`failed
      ensures failed == old(Logged(status, Reserve))
      ensures status == 0 ==> old(Reservable(reserved, addr, size)) && reserved == old(reserved)[addr := size]
      ensures status != 0 ==> reserved == old(reserved)
    {
      status := *;
      addr := *;
      if status == 0 && !Reservable(reserved, addr, size) {
        status := 1;
      }
      failed := Logged(status, Reserve);
      if status == 0 {
        reserved := reserved[addr := size];
      }
    }

    /** Frees a whole reservation in which nothing is mapped any more. */
    method AddressFree(addr: nat, size: nat) returns (status: int)
      modifies this`reserved, this`failed
      ensures failed == old(Logged(status, FreeRange))
      ensures status == 0 ==> addr in old(reserved) && old(reserved)[addr] == size && reserved == old(reserved) - {addr}
      ensures status == 0 ==> forall a :: a in mapped ==> !Overlap(a, mapped[a].size, addr, size)
      ensures status != 0 ==> reserved == old(reserved)
    {
      status := *;
      if status == 0 && !(addr in reserved && reserved[addr] == size
                          && forall a :: a in mapped ==> !Overlap(a, mapped[a].size, addr, size)) {
        status := 1;
      }
      failed := Logged(status, FreeRange);
      if status == 0 {
        reserved := reserved - {addr};
      }
    }

    method SetAccess(addr: nat, size: nat) returns (status: int)
      modifies this`failed, this`grants
      ensures failed == old(Logged(status, Access))
      ensures grants == if status == 0 then old(grants) + [(addr, size)] else old(grants)
    {
      status := *;
      failed := Logged(status, Access);
      if status == 0 {
        grants := grants + [(addr, size)];
      }
    }

    /** A driver call without an effect here: contexts and the granularity. */
    method OtherCall(ghost call: Call) returns (status: int)
      modifies this`failed
      ensures failed == old(Logged(status, call))
    {
      status := *;
      failed := Logged(status, call);
    }

    method Check(status: int)
      modifies this`errorCode
      ensures errorCode == if status != 0 then status else old(errorCode)
    {
      if status != 0 {
        errorCode := status;
      }
    }

    /** The current context is asked for, and made if there is none. */
    method EnsureContext()
      modifies this`errorCode, this`failed
      ensures OnlyContext(old(failed), failed)
      ensures errorCode == 0 <==> old(errorCode) == 0 && failed == old(failed)
    {
      var status := OtherCall(Context);
      Check(status);
      var missing: bool := *;
      if missing {
        status := OtherCall(Context);
        Check(status);
        status := OtherCall(Context);
        Check(status);
      }
    }

    // ----- Creating and mapping, unmapping and releasing

    /** Unmaps consecutive chunks, every one of them whatever fails, and remembers the first failure. */
    method UnmapAll(base: nat, chunks: seq<nat>) returns (firstError: int)
      modifies this`mapped, this`failed
      ensures old(failed) <= failed && (firstError == 0 <==> failed == old(failed))
      ensures forall i :: |old(failed)| <= i < |failed| ==> failed[i].Unmap?
      ensures forall a :: a in Addresses(base, chunks) ==> UnmapTried(old(failed), failed, old(mapped), mapped, a)
      ensures firstError == 0 ==> mapped == old(mapped) - Addresses(base, chunks)
      ensures firstError == 0 ==> Addresses(base, chunks) <= old(mapped).Keys
      ensures SubMap(mapped, old(mapped))
      ensures forall a :: a in old(mapped) && a !in Addresses(base, chunks) ==> a in mapped
      ensures chunks == [] ==> mapped == old(mapped)
    {
      firstError := 0;
      var offset := 0;
      ghost var gone: set<nat>, stuck: set<nat> := {}, {};
      for i := 0 to |chunks|
        invariant offset == Sum(chunks[..i])
        invariant old(failed) <= failed && (firstError == 0 <==> failed == old(failed))
        invariant forall k :: |old(failed)| <= k < |failed| ==> failed[k].Unmap?
        invariant gone <= Addresses(base, chunks[..i]) <= gone + stuck && mapped == old(mapped) - gone
        invariant gone <= old(mapped).Keys && (firstError == 0 ==> stuck == {})
        invariant forall a :: a in stuck ==> FailedSince(old(failed), failed, Unmap(a))
      {
        assert chunks[..i + 1][..i] == chunks[..i];
        assert Addresses(base, chunks[..i + 1]) == Addresses(base, chunks[..i]) + {base + offset};
        ghost var before := failed;
        var status := MemUnmap(base + offset, chunks[i]);
        if status == 0 {
          gone := gone + {base + offset};
        } else {
          LogStuck(old(failed), before, stuck, base + offset);
          stuck := stuck + {base + offset};
          if firstError == 0 {
            firstError := status;
          }
        }
        offset := offset + chunks[i];
      }
      assert chunks[..|chunks|] == chunks;
      EachTried(old(failed), failed, old(mapped), mapped, Addresses(base, chunks), gone, stuck);
    }

    /** Releases handles, every one of them whatever fails, and remembers the first failure. */
    method ReleaseAll(handles: seq<nat>) returns (firstError: int)
      modifies this`live, this`failed
      ensures old(failed) <= failed && (firstError == 0 <==> failed == old(failed))
      ensures forall i :: |old(failed)| <= i < |failed| ==> failed[i].Release?
      ensures forall h :: h in handles ==> ReleaseTried(old(failed), failed, old(live), live, h)
      ensures firstError == 0 ==> live == old(live) - SetOf(handles)
      ensures handles == [] ==> firstError == 0
      ensures SubMap(live, old(live)) && forall h :: h in old(live) && h !in handles ==> h in live
    {
      firstError := 0;
      ghost var gone: set<nat>, stuck: set<nat> := {}, {};
      for i := 0 to |handles|
        invariant old(failed) <= failed && (firstError == 0 <==> failed == old(failed))
        invariant forall k :: |old(failed)| <= k < |failed| ==> failed[k].Release?
        invariant i == 0 ==> firstError == 0
        invariant gone <= SetOf(handles[..i]) <= gone + stuck && live == old(live) - gone
        invariant gone <= old(live).Keys && (firstError == 0 ==> stuck == {})
        invariant forall h :: h in stuck ==> FailedSince(old(failed), failed, Release(h))
      {
        assert handles[..i + 1] == handles[..i] + [handles[i]];
        assert SetOf(handles[..i + 1]) == SetOf(handles[..i]) + {handles[i]};
        ghost var before := failed;
        var status := MemRelease(handles[i]);
        if status == 0 {
          gone := gone + {handles[i]};
        } else {
          LogHeld(old(failed), before, stuck, handles[i]);
          stuck := stuck + {handles[i]};
          if firstError == 0 {
            firstError := status;
          }
        }
      }
      assert handles[..|handles|] == handles;
      assert forall h :: h in handles ==> h in SetOf(handles);
    }

    /** Creates a handle for chunk i. */
    method CreateNext(chunks: seq<nat>, handles: array<nat>, i: nat) returns (status: int)
      requires handles.Length == |chunks| && i < |chunks|
      modifies this`live, this`errorCode, this`failed, handles
      ensures failed == old(Logged(status, Create)) && errorCode == if status == 0 then old(errorCode) else status
      ensures handles[..] == old(handles[..])[i := handles[i]]
      ensures status == 0 ==> handles[i] !in old(live) && live == old(live)[handles[i] := chunks[i]]
      ensures status != 0 ==> live == old(live)
    {
      var handle;
      status, handle := MemCreate(chunks[i]);
      if status == 0 {
        handles[i] := handle;
      }
      Check(status);
    }

    /**
      The loop that creates the chunks, each with its own size; a failure releases those created before.
      An error pending from before is taken for a failure to create the first chunk, whose handle is not
      released.
     */
    method CreateChunks(chunks: seq<nat>, handles: array<nat>)
      requires handles.Length == |chunks|
      modifies this`live, this`errorCode, this`failed, handles
      ensures old(failed) <= failed && (errorCode == 0 <==> old(errorCode) == 0 && failed == old(failed))
      ensures failed != old(failed) ==> failed[|old(failed)|] == Create && chunks != []
      ensures errorCode == 0 || chunks == [] ==> Created(old(live), live, handles[..], chunks)
      ensures failed == old(failed) + [Create] ==> live == old(live)
      ensures failed == old(failed) && errorCode != 0 && chunks != [] ==>
                OneLeaked(old(live), live, handles[..], chunks)
      ensures SubMap(old(live), live)
    {
      for i := 0 to |chunks|
        invariant errorCode == old(errorCode) && (i > 0 ==> errorCode == 0) && failed == old(failed)
        invariant Created(old(live), live, handles[..i], chunks[..i])
      {
        ghost var created, hs := live, handles[..];
        var status := CreateNext(chunks, handles, i);
        assert hs[..i] == handles[..i] && handles[..][..i + 1] == handles[..i + 1];
        if status == 0 {
          CreateStep(old(live), created, live, hs, handles[..], chunks, i);
        }
        if errorCode != 0 {
          assert status == 0 ==> handles[..i] == [];
          var _ := ReleaseAll(handles[..i]);
          KeptHandles(old(live), created, live, handles[..i], chunks[..i], status != 0);
          return;
        }
      }
      assert handles[..|chunks|] == handles[..] && chunks[..|chunks|] == chunks;
    }

    /** Unmaps the chunks mapped so far and releases all handles, ignoring failures. */
    method RollBack(base: nat, chunks: seq<nat>, handles: seq<nat>)
      modifies this`live, this`mapped, this`failed
      ensures old(failed) <= failed
      ensures failed == old(failed) ==>
                mapped == old(mapped) - Addresses(base, chunks) && live == old(live) - SetOf(handles)
      ensures SubMap(mapped, old(mapped))
      ensures forall a :: a in old(mapped) && a !in Addresses(base, chunks) ==> a in mapped
      ensures chunks == [] ==> mapped == old(mapped)
      ensures SubMap(live, old(live)) && forall h :: h in old(live) && h !in handles ==> h in live
    {
      var _ := UnmapAll(base, chunks);
      var _ := ReleaseAll(handles);
    }

    /** What an attempt to map may have changed since before. */
    ghost predicate Pieces(before: map<nat, Mapping>, base: nat, chunks: seq<nat>)
      reads this
    {
      SubMap(before, mapped) && forall a :: NewPiece(before, mapped, reserved, base, chunks, a)
    }

    /** Maps chunk i, the preceding ones being mapped. */
    method MapNext(base: nat, chunks: seq<nat>, handles: array<nat>, i: nat, allocatedSize: nat,
                   ghost before: map<nat, Mapping>) returns (status: int)
      requires handles.Length == |chunks| && i < |chunks| && errorCode == 0 && allocatedSize == Sum(chunks[..i])
      requires Placed(before, mapped, base, chunks[..i], handles[..i]) && Pieces(before, base, chunks)
      modifies this`mapped, this`errorCode, this`failed
      ensures errorCode == status && failed == old(Logged(status, Map))
      ensures errorCode == 0 ==> Placed(before, mapped, base, chunks[..i + 1], handles[..i + 1])
      ensures errorCode == 0 ==> Pieces(before, base, chunks) && (i == 0 ==> base !in before)
      ensures errorCode != 0 ==> mapped == old(mapped)
    {
      ghost var mid := mapped;
      status := MemMap(base + allocatedSize, chunks[i], handles[i]);
      Check(status);
      if status == 0 {
        assert handles[..][..i] == handles[..i] && handles[..][..i + 1] == handles[..i + 1];
        PlaceOneMore(before, mid, base, chunks, handles[..], i);
        OneMorePiece(before, mid, reserved, base, chunks, i, handles[i]);
      }
    }

    /** The loop that maps the chunks; a failure unmaps those mapped before and releases all. */
    method MapChunks(base: nat, chunks: seq<nat>, handles: array<nat>)
      requires handles.Length == |chunks| && errorCode == 0
      modifies this`live, this`mapped, this`errorCode, this`failed
      ensures old(failed) <= failed && (errorCode == 0 <==> failed == old(failed))
      ensures failed != old(failed) ==> failed[|old(failed)|] == Map && chunks != []
      ensures errorCode == 0 ==> live == old(live) && Placed(old(mapped), mapped, base, chunks, handles[..])
      ensures failed == old(failed) + [Map] ==> mapped == old(mapped) && live == old(live) - SetOf(handles[..])
      ensures SubMap(live, old(live)) && forall h :: h in old(live) && h !in handles[..] ==> h in live
      ensures Pieces(old(mapped), base, chunks)
      ensures chunks != [] && base in old(mapped) ==> mapped == old(mapped)
    {
      var allocatedSize := 0;
      for i := 0 to |chunks|
        invariant allocatedSize == Sum(chunks[..i]) && errorCode == 0 && live == old(live) && failed == old(failed)
        invariant Placed(old(mapped), mapped, base, chunks[..i], handles[..i])
        invariant Pieces(old(mapped), base, chunks)
        invariant base in old(mapped) ==> i == 0
      {
        var _ := MapNext(base, chunks, handles, i, allocatedSize, old(mapped));
        if errorCode != 0 {
          UndoPlaced(old(mapped), mapped, base, chunks[..i], handles[..i]);
          ghost var mid := mapped;
          RollBack(base, chunks[..i], handles[..]);
          KeptPieces(old(mapped), mid, mapped, reserved, base, chunks, Addresses(base, chunks[..i]));
          return;
        }
        assert chunks[..i + 1][..i] == chunks[..i];
        allocatedSize := allocatedSize + chunks[i];
      }
      assert chunks[..|chunks|] == chunks && handles[..|chunks|] == handles[..];
    }

    /**
      `create_and_map`, by the calls that fail.  It succeeds exactly when no error was pending and none
      does.  When a single call fails, the driver is left as it was if and only if that call was one to
      create or to map a chunk.  When only access is refused, everything stays mapped.  An error that was
      pending, or comes from the context, makes the first new handle leak.
     */
    method CreateAndMap(base: nat, size: nat, chunks: seq<nat>, handles: array<nat>)
      requires handles.Length == |chunks|
      modifies this`live, this`mapped, this`errorCode, this`failed, this`grants, handles
      ensures old(failed) <= failed && (errorCode == 0 <==> old(errorCode) == 0 && failed == old(failed))
      ensures Complete(old(errorCode), old(failed), failed) ==>
                && Created(old(live), live, handles[..], chunks)
                && Placed(old(mapped), mapped, base, chunks, handles[..])
      ensures OneChunkFailed(old(failed), failed) ==> live == old(live) && mapped == old(mapped)
      ensures Stale(old(errorCode), old(failed), failed) && chunks != [] ==>
                OneLeaked(old(live), live, handles[..], chunks) && mapped == old(mapped)
      ensures chunks != [] && |failed| <= |old(failed)| + 1 ==>
                (OneChunkFailed(old(failed), failed) <==> live == old(live) && mapped == old(mapped))
      ensures failed != old(failed) && failed[|old(failed)|] == Access ==> failed == old(failed) + [Access]
      ensures errorCode == 0 ==> grants == old(grants) + [(base, size)]
      ensures SubMap(old(live), live) && Pieces(old(mapped), base, chunks)
      ensures chunks != [] && base in old(mapped) ==> mapped == old(mapped)
    {
      PrepareChunks(chunks, handles);
      if errorCode != 0 && chunks != [] {
        return;
      }
      ghost var f1 := failed;
      if errorCode == 0 {
        MapAndGrant(base, size, chunks, handles, old(live));
      } else {
        var status := SetAccess(base, size);
        Check(status);
        assert mapped + map[] == mapped;
        ContextFirst(old(failed), f1, failed);
      }
    }

    /** The first half of `create_and_map`: makes sure of the context and creates the chunks. */
    method PrepareChunks(chunks: seq<nat>, handles: array<nat>)
      requires handles.Length == |chunks|
      modifies this`live, this`errorCode, this`failed, handles
      ensures old(failed) <= failed && (errorCode == 0 <==> old(errorCode) == 0 && failed == old(failed))
      ensures failed != old(failed) + [Access] && failed != old(failed) + [Map]
      ensures failed != old(failed) ==> failed[|old(failed)|] != Access
      ensures chunks == [] ==> OnlyContext(old(failed), failed)
      ensures errorCode == 0 || chunks == [] ==> Created(old(live), live, handles[..], chunks)
      ensures failed == old(failed) + [Create] ==> live == old(live)
      ensures Stale(old(errorCode), old(failed), failed) && chunks != [] ==>
                OneLeaked(old(live), live, handles[..], chunks)
      ensures errorCode != 0 && chunks != [] && |failed| <= |old(failed)| + 1 ==>
                (OneChunkFailed(old(failed), failed) <==> live == old(live))
      ensures errorCode != 0 ==> !Complete(old(errorCode), old(failed), failed)
      ensures OneChunkFailed(old(failed), failed) ==> live == old(live)
      ensures SubMap(old(live), live)
    {
      EnsureContext();
      ghost var f1 := failed;
      CreateChunks(chunks, handles);
      ContextFirst(old(failed), f1, failed);
      assert failed != f1 ==> failed[|f1|] == Create;
      assert f1 != old(failed) ==> failed[|old(failed)|] == Context;
    }

    /** The second half of `create_and_map`: maps the created chunks and grants access to them. */
    method MapAndGrant(base: nat, size: nat, chunks: seq<nat>, handles: array<nat>, ghost before: map<nat, nat>)
      requires handles.Length == |chunks| && errorCode == 0 && Created(before, live, handles[..], chunks)
      modifies this`live, this`mapped, this`errorCode, this`failed, this`grants
      ensures grants == if errorCode == 0 then old(grants) + [(base, size)] else old(grants)
      ensures old(failed) <= failed && (errorCode == 0 <==> failed == old(failed))
      ensures failed != old(failed) ==>
                failed == old(failed) + [Access] || (failed[|old(failed)|] == Map && chunks != [])
      ensures Complete(0, old(failed), failed) ==>
                && live == old(live) && (chunks != [] ==> live != before)
                && Placed(old(mapped), mapped, base, chunks, handles[..])
      ensures OneChunkFailed(old(failed), failed) ==> mapped == old(mapped) && live == before
      ensures chunks != [] && |failed| <= |old(failed)| + 1 ==>
                (OneChunkFailed(old(failed), failed) <==> live == before && mapped == old(mapped))
      ensures !Stale(0, old(failed), failed)
      ensures SubMap(before, live) && Pieces(old(mapped), base, chunks)
      ensures chunks != [] && base in old(mapped) ==> mapped == old(mapped)
    {
      MapCreated(base, chunks, handles, before);
      if errorCode != 0 {
        return;
      }
      var status := SetAccess(base, size);
      Check(status);
      assert status != 0 ==> failed[|old(failed)|] == Access;
    }

    /** Maps the chunks that have been created since before; a failure leaves nothing of them. */
    method MapCreated(base: nat, chunks: seq<nat>, handles: array<nat>, ghost before: map<nat, nat>)
      requires handles.Length == |chunks| && errorCode == 0 && Created(before, live, handles[..], chunks)
      modifies this`live, this`mapped, this`errorCode, this`failed
      ensures old(failed) <= failed && (errorCode == 0 <==> failed == old(failed))
      ensures failed != old(failed) ==> failed[|old(failed)|] == Map && chunks != []
      ensures errorCode == 0 ==>
                && live == old(live) && (chunks != [] ==> live != before)
                && Placed(old(mapped), mapped, base, chunks, handles[..])
      ensures failed == old(failed) + [Map] ==> mapped == old(mapped) && live == before
      ensures SubMap(before, live) && Pieces(old(mapped), base, chunks)
      ensures chunks != [] && base in old(mapped) ==> mapped == old(mapped)
    {
      MapChunks(base, chunks, handles);
      KeptHandles(before, old(live), live, handles[..], chunks, true);
    }

    /**
      `unmap_and_release`: tries every chunk and then every handle, whatever fails, and reports the first
      failure.
     */
    method UnmapAndRelease(base: nat, chunks: seq<nat>, handles: seq<nat>)
      modifies this`live, this`mapped, this`errorCode, this`failed
      ensures old(failed) <= failed && (errorCode == 0 <==> old(errorCode) == 0 && failed == old(failed))
      ensures AllTried(old(failed), failed, old(St()), St(), base, chunks, handles)
      ensures NoUnmapFailed(old(failed), failed) ==>
                mapped == old(mapped) - Addresses(base, chunks) && Addresses(base, chunks) <= old(mapped).Keys
      ensures NoReleaseFailed(old(failed), failed) ==> live == old(live) - SetOf(handles)
      ensures !FailedSince(old(failed), failed, FreeRange)
      ensures Lessened(old(St()), St(), base, chunks, handles)
    {
      EnsureContext();
      ghost var f1 := failed;
      var e1 := UnmapAll(base, chunks);
      ghost var f2 := failed;
      var e2 := ReleaseAll(handles);
      var firstError := if e1 != 0 then e1 else e2;
      if firstError != 0 {
        Check(firstError);
      }
      TriedInTurn(old(failed), f1, f2, failed, old(St()), St(), base, chunks, handles);
    }

    // ----- The operations of the allocator

    /** The part of `my_malloc` up to the reservation. */
    method ReserveRange(size: nat, granularity: nat) returns (found: bool, d: nat, alignedSize: nat)
      requires size < U64 && 0 < granularity < U64
      modifies this`reserved, this`errorCode, this`failed
      ensures old(failed) <= failed && (found <==> errorCode == 0)
      ensures found <==> old(errorCode) == 0 && failed == old(failed)
      ensures found ==> alignedSize == AlignUp(size, granularity) && 0 < alignedSize < U64
      ensures found ==> Reservable(old(reserved), d, alignedSize) && reserved == old(reserved)[d := alignedSize]
      ensures !found ==> reserved == old(reserved)
    {
      found, d, alignedSize := false, 0, 0;
      EnsureContext();
      var status := OtherCall(Granularity);
      Check(status);
      if errorCode != 0 {
        return;
      }
      AlignUpIff(size, granularity);
      alignedSize := AlignUp(size, granularity);
      status, d := AddressReserve(alignedSize);
      Check(status);
      found := errorCode == 0;
    }

    /** The part of `my_malloc` after the address range is reserved: record, create, map. */
    method Materialise(d: nat, size: nat, chunks: seq<nat>) returns (ok: bool)
      requires errorCode == 0 && d in reserved && reserved[d] == size > 0
      modifies this`live, this`mapped, this`reserved, this`errorCode, this`failed, this`grants, this`table, this`cells
      ensures old(failed) <= failed && (ok <==> errorCode == 0) && (ok <==> failed == old(failed))
      ensures cells == old(cells) - if ok then 0 else |chunks|
      ensures d in table && table == old(table)[d := Allocation(size, chunks, table[d].handles)]
      ensures |table[d].handles| == |chunks|
      ensures ok || failed == old(failed) + [Access] + [FreeRange] ==>
                && Created(old(live), live, table[d].handles, chunks) && reserved == old(reserved)
                && Placed(old(mapped), mapped, d, chunks, table[d].handles)
      ensures OneChunkFailed(old(failed), failed) ==>
                live == old(live) && mapped == old(mapped) && reserved == old(reserved) - {d}
      ensures Stale(0, old(failed), failed) && chunks != [] ==>
                OneLeaked(old(live), live, table[d].handles, chunks)
                && mapped == old(mapped) && reserved == old(reserved) - {d}
      ensures chunks != [] && Positive(chunks) ==> failed != old(failed) + [Access]
      ensures ok ==> reserved == old(reserved) && grants == old(grants) + [(d, size)]
      ensures var attempt := State(live, mapped, old(reserved), table, {});
              Attempted(old(St()), attempt, d, chunks) && FreedOrNot(attempt, St(), d)
    {
      RecordAndMap(d, size, chunks);
      ok := errorCode == 0;
      if errorCode != 0 {
        ghost var f1 := failed;
        var status := AddressFree(d, size);
        Check(status);
        FreeCells(|chunks|);
        if status != 0 {
          FreeRangeLast(old(failed), f1, failed);
        } else if chunks != [] && Positive(chunks) && f1 == old(failed) + [Access] {
          MappedRangeIsInUse(old(mapped), mapped, d, size, chunks, table[d].handles);
        }
      }
    }

    /** Hands a new record to the Python side, then creates and maps its chunks. */
    method RecordAndMap(d: nat, size: nat, chunks: seq<nat>)
      requires errorCode == 0
      modifies this`live, this`mapped, this`errorCode, this`failed, this`grants, this`table
      ensures old(failed) <= failed && (errorCode == 0 <==> failed == old(failed))
      ensures d in table && table == old(table)[d := Allocation(size, chunks, table[d].handles)]
      ensures |table[d].handles| == |chunks|
      ensures errorCode == 0 ==> grants == old(grants) + [(d, size)]
      ensures Complete(0, old(failed), failed) ==>
                && Created(old(live), live, table[d].handles, chunks)
                && Placed(old(mapped), mapped, d, chunks, table[d].handles)
      ensures OneChunkFailed(old(failed), failed) ==> live == old(live) && mapped == old(mapped)
      ensures Stale(0, old(failed), failed) && chunks != [] ==>
                OneLeaked(old(live), live, table[d].handles, chunks) && mapped == old(mapped)
      ensures failed != old(failed) && failed[|old(failed)|] == Access ==> failed == old(failed) + [Access]
      ensures Attempted(old(St()), St(), d, chunks)
    {
      var cells := new nat[|chunks|];
      table := table[d := Allocation(size, chunks, cells[..])];
      MapRecord(d);
    }

    /**
      `my_malloc`.  A pending error refuses the call before anything happens, and so does a request whose
      rounded-up size is zero.  On success the new allocation is split into full chunks and a remainder,
      all mapped.  Any failure after the reservation leaves the good part as it was; what else it leaves
      depends on the calls that failed.  If access is refused, the allocation is there and in good
      standing, but its address is not returned.
     */
    method Malloc(size: int, granularity: nat, baseChunk: nat) returns (r: MallocResult)
      requires -0x8000_0000_0000_0000 <= size < 0x8000_0000_0000_0000
      requires 0 < granularity < U64 && 0 < baseChunk < U64
      requires Valid()
      modifies this
      ensures Valid() && old(failed) <= failed && (errorCode == 0 <==> old(errorCode) == 0 && failed == old(failed))
      ensures old(errorCode) != 0 || AlignUp(Wrap(size), granularity) == 0 ==> r.Refused?
      ensures r.Refused? ==> St() == old(St()) && core == old(core) && errorCode != 0
      ensures errorCode == 0 ==> (r.ZeroChunk? <==> AlignUp(baseChunk, granularity) == 0)
      ensures r.ZeroChunk? || r.NoHostMemory? ==>
                && errorCode == 0 && core == old(core) && r.d !in old(reserved)
                && St() == old(St()).(reserved := old(reserved)[r.d := AlignUp(Wrap(size), granularity)])
      ensures r.Pointer? || r.NotMapped? ==>
                && r.d !in old(reserved) && r.d in table && AlignUp(baseChunk, granularity) > 0
                && table[r.d].size == AlignUp(Wrap(size), granularity)
                && table[r.d].chunks == ChunksFor(Wrap(size), granularity, baseChunk)
                && table == old(table)[r.d := table[r.d]]
      ensures errorCode == 0 <==> r.Pointer? || r.ZeroChunk? || r.NoHostMemory?
      ensures hostFailures >= old(hostFailures) && (r.NoHostMemory? <==> hostFailures > old(hostFailures))
      ensures r.Pointer? ==> cells == old(cells) + |table[r.d].chunks|
      ensures !r.Pointer? ==> cells == old(cells)
      ensures r.Pointer? && table[r.d].chunks != [] && old(Intact(core, St())) ==> Intact(core, St())
      ensures (r.Pointer? || (r.NotMapped? && failed == old(failed) + [Access] + [FreeRange]))
              && table[r.d].chunks != [] ==>
                && Performed(old(core), Op.Malloc(r.d, table[r.d]), core)
                && reserved == old(reserved)[r.d := table[r.d].size]
                && Created(old(live), live, table[r.d].handles, table[r.d].chunks)
                && Placed(old(mapped), mapped, r.d, table[r.d].chunks, table[r.d].handles)
      ensures r.Pointer? ==> grants == old(grants) + [(r.d, table[r.d].size)]
      ensures r.Pointer? && table[r.d].chunks == [] ==>
                core == old(core) && live == old(live) && mapped == old(mapped)
      ensures r.NotMapped? && failed != old(failed) + [Access] + [FreeRange] ==> core == old(core)
      ensures r.NotMapped? && OneChunkFailed(old(failed), failed) ==>
                live == old(live) && mapped == old(mapped) && reserved == old(reserved)
      ensures r.NotMapped? && Stale(0, old(failed), failed) && table[r.d].chunks != [] ==>
                OneLeaked(old(live), live, table[r.d].handles, table[r.d].chunks)
                && mapped == old(mapped) && reserved == old(reserved)
    {
      var found, d, alignedSize := ReserveRange(Wrap(size), granularity);
      if !found {
        return Refused;
      }
      ReserveHolds(core, old(St()), d, alignedSize);
      assert d !in core.reserved && d !in core.table;
      AlignUpIff(baseChunk, granularity);
      var alignedChunkSize := AlignUp(baseChunk, granularity);
      if alignedChunkSize == 0 {
        return ZeroChunk(d);
      }
      r := MallocChunks(d, alignedSize, alignedChunkSize, old(St()));
    }

    /** The part of `my_malloc` that splits the range and gets a handle cell for each chunk. */
    method MallocChunks(d: nat, size: nat, chunkSize: nat, ghost s0: State) returns (r: MallocResult)
      requires errorCode == 0 && Holds(core, s0) && Reservable(s0.reserved, d, size)
      requires Valid() && St() == s0.(reserved := s0.reserved[d := size])
      requires size < U64 && 0 < chunkSize < U64
      modifies this`live, this`mapped, this`reserved, this`errorCode, this`failed, this`grants, this`table,
               this`core, this`cells, this`hostFailures
      ensures Valid() && old(failed) <= failed && (errorCode == 0 <==> failed == old(failed))
      ensures hostFailures >= old(hostFailures) && (r.NoHostMemory? <==> hostFailures > old(hostFailures))
      ensures r == if hostFailures > old(hostFailures) then NoHostMemory(d)
                   else if errorCode == 0 then Pointer(d) else NotMapped(d)
      ensures r.NoHostMemory? ==> errorCode == 0 && core == old(core) && St() == old(St())
      ensures r.NoHostMemory? ==> cells == old(cells)
      ensures !r.NoHostMemory? ==>
                && d in table && table == s0.table[d := Allocation(size, table[d].chunks, table[d].handles)]
                && table[d].chunks == ChunkSizes(size, chunkSize)
                && Allocated(old(core), s0, old(failed), d)
                && cells == old(cells) + if r.Pointer? then |table[d].chunks| else 0
      ensures r.Pointer? ==> grants == old(grants) + [(d, size)]
      ensures r.Pointer? && table[d].chunks != [] && old(Intact(core, s0)) ==> Intact(core, St())
    {
      var sizes := ComputeChunks(size, chunkSize);
      var chunks := sizes[..];
      assert Positive(chunks) && (chunks != [] ==> Sum(chunks) == size) by {
        ChunksCoverIff(size, chunkSize);
      }
      var ok := HostCells(|chunks|);
      if !ok {
        return NoHostMemory(d);
      }
      r := Allocate(d, size, chunks, s0);
    }

    /** What an allocation has left, by the calls that have failed: from the state s0 before the reservation. */
    ghost predicate Allocated(c: State, s0: State, f0: seq<Call>, d: nat)
      requires d in table
      reads this`live, this`mapped, this`reserved, this`table, this`core, this`failed
    {
      var a := table[d];
      var complete := a.chunks != [] && (failed == f0 || failed == f0 + [Access] + [FreeRange]);
      && |a.handles| == |a.chunks|
      && (complete ==> Performed(c, Op.Malloc(d, a), core) && reserved == s0.reserved[d := a.size]
                       && Created(s0.live, live, a.handles, a.chunks)
                       && Placed(s0.mapped, mapped, d, a.chunks, a.handles))
      && (!complete ==> core == c)
      && (a.chunks == [] && failed == f0 ==> live == s0.live && mapped == s0.mapped)
      && (OneChunkFailed(f0, failed) ==> live == s0.live && mapped == s0.mapped && reserved == s0.reserved)
      && (Stale(0, f0, failed) && a.chunks != [] ==>
            OneLeaked(s0.live, live, a.handles, a.chunks) && mapped == s0.mapped && reserved == s0.reserved)
    }

    /** Host memory for one handle cell. */
    method HostMalloc() returns (ok: bool)
      modifies this`hostFailures, this`cells
      ensures hostFailures == old(hostFailures) + if ok then 0 else 1
      ensures cells == old(cells) + if ok then 1 else 0
    {
      ok := *;
      if ok {
        cells := cells + 1;
      } else {
        hostFailures := hostFailures + 1;
      }
    }

    /** Frees one handle cell. */
    method HostFree()
      modifies this`cells
      ensures cells == old(cells) - 1
    {
      cells := cells - 1;
    }

    /** Frees n handle cells. */
    method FreeCells(n: nat)
      modifies this`cells
      ensures cells == old(cells) - n
    {
      for i := 0 to n
        invariant cells == old(cells) - i
      {
        HostFree();
      }
    }

    /** Host memory for n handle cells, one after the other; without one of them those before are freed. */
    method HostCells(n: nat) returns (ok: bool)
      modifies this`hostFailures, this`cells
      ensures hostFailures >= old(hostFailures) && (ok <==> hostFailures == old(hostFailures))
      ensures n == 0 ==> ok
      ensures cells == old(cells) + if ok then n else 0
    {
      for i := 0 to n
        invariant hostFailures == old(hostFailures) && cells == old(cells) + i
      {
        ok := HostMalloc();
        if !ok {
          FreeCells(i);
          return;
        }
      }
      ok := true;
    }

    /** The end of `my_malloc`, once chunk sizes are known; s0 is the state before the reservation. */
    method Allocate(d: nat, size: nat, chunks: seq<nat>, ghost s0: State) returns (r: MallocResult)
      requires errorCode == 0 && Holds(core, s0) && Reservable(s0.reserved, d, size)
      requires St() == s0.(reserved := s0.reserved[d := size])
      requires Positive(chunks) && (chunks != [] ==> Sum(chunks) == size)
      modifies this`live, this`mapped, this`reserved, this`errorCode, this`failed, this`grants, this`table,
               this`core, this`cells
      ensures Valid() && old(failed) <= failed && (errorCode == 0 <==> failed == old(failed))
      ensures cells == old(cells) - if r.Pointer? then 0 else |chunks|
      ensures r == if errorCode == 0 then Pointer(d) else NotMapped(d)
      ensures d in table && table == s0.table[d := Allocation(size, chunks, table[d].handles)]
      ensures errorCode == 0 ==> grants == old(grants) + [(d, size)]
      ensures Allocated(old(core), s0, old(failed), d)
      ensures chunks != [] && errorCode == 0 && old(Intact(core, s0)) ==> Intact(core, St())
    {
      assert s0.reserved[d := size] - {d} == s0.reserved;
      var ok := Materialise(d, size, chunks);
      ghost var attempt := State(live, mapped, old(reserved), table, {});
      core := AfterMalloc(core, s0, attempt, St(), d,
                          chunks != [] && (ok || failed == old(failed) + [Access] + [FreeRange]));
      NothingPlaced(s0.mapped, mapped, d, chunks, table[d].handles);
      r := if ok then Pointer(d) else NotMapped(d);
    }

    /**
      `python_unmap_and_release` for one record.  Every chunk and every handle cell is tried.  When no
      unmapping fails, an awake allocation is asleep; success is reported exactly if no call fails and no
      error was pending, and none is pending after.  Of the other allocations, exactly those that lose
      something are awake in good standing no longer; unless a failing call spares them, these are exactly
      the ones that own a handle in the record's cells or are mapped at its addresses: nobody if the
      allocation is awake, but possibly others if it is asleep.
     */
    method SleepOne(d: nat) returns (ok: bool)
      requires Valid() && d in table
      modifies this`live, this`mapped, this`errorCode, this`failed, this`core
      ensures Valid() && old(failed) <= failed
      ensures errorCode == 0 && (ok <==> old(errorCode) == 0 && failed == old(failed))
      ensures AllTried(old(failed), failed, old(St()), St(), d, table[d].chunks, table[d].handles)
      ensures Lessened(old(St()), St(), d, table[d].chunks, table[d].handles)
      ensures NoUnmapFailed(old(failed), failed) ==> mapped == old(mapped) - Addresses(d, table[d].chunks)
      ensures NoReleaseFailed(old(failed), failed) ==> live == old(live) - SetOf(table[d].handles)
      ensures core == AfterSleep(old(core), d, old(St()), St())
      ensures d in old(core).awake && NoUnmapFailed(old(failed), failed) ==> Performed(old(core), Op.Sleep(d), core)
      ensures forall e :: e in old(core).awake && e != d ==> (e in core.awake <==> e !in Damaged(old(core), St()))
      ensures forall e :: e in old(core).table && e !in old(core).awake ==> e in core.table && e !in core.awake
      ensures Damaged(old(core), St()) <= Harmed(old(core), d, table[d].chunks, table[d].handles)
      ensures NoLuck(old(failed), failed, old(core), d, table[d].chunks, table[d].handles) ==>
                Damaged(old(core), St()) == Harmed(old(core), d, table[d].chunks, table[d].handles)
      ensures d in old(core).awake ==> Harmed(old(core), d, table[d].chunks, table[d].handles) == {d}
      ensures d in old(core).table && d !in old(core).awake ==> !NoUnmapFailed(old(failed), failed)
      ensures ok && old(Intact(core, St())) ==> Intact(core, St())
    {
      var record := table[d];
      SleeperIsNotMapped(core, St(), d);
      UnmapAndRelease(d, record.chunks, record.handles);
      ok := errorCode == 0;
      errorCode := 0;
      ConcludeSleep(core, old(failed), failed, old(St()), St(), d);
      core := AfterSleep(core, d, old(St()), St());
    }

    /**
      `python_create_and_map` for one record.  Success wakes the allocation up, and so does a refused
      access; it is possible only for one that is asleep.  A single failure to create or map a chunk
      leaves the driver as it was, and a pending error leaks one handle; either way a sleeping allocation
      stays in good standing, and an awake one loses its handle cells.
     */
    method WakeOne(d: nat) returns (ok: bool)
      requires Valid() && d in table
      modifies this`live, this`mapped, this`errorCode, this`failed, this`grants, this`table,
               this`core
      ensures Valid() && old(failed) <= failed
      ensures errorCode == 0 && (ok <==> old(errorCode) == 0 && failed == old(failed))
      ensures d in table && table == Recelled(old(St()), d, table[d].handles).table
      ensures |table[d].handles| == |old(table)[d].chunks|
      ensures ok ==> grants == old(grants) + [(d, old(table)[d].size)]
      ensures d in old(core).table ==> old(core).table[d] == old(table)[d]
      ensures core == AfterWake(old(core), old(St()), St(), d, Complete(old(errorCode), old(failed), failed))
      ensures d in old(core).table && Complete(old(errorCode), old(failed), failed) ==>
                && Performed(old(core), Op.Wake(d, table[d].handles), core)
                && Created(old(live), live, table[d].handles, old(table)[d].chunks)
                && Placed(old(mapped), mapped, d, old(table)[d].chunks, table[d].handles)
      ensures d in old(core).awake ==> !ok && mapped == old(mapped)
      ensures d in old(core).table ==> forall e :: e in old(core).table && e != d ==>
                e in core.table && (e in core.awake <==> e in old(core).awake)
      ensures d in old(core).table && d !in old(core).awake && mapped == old(mapped) ==>
                d in core.table && d !in core.awake
      ensures OneChunkFailed(old(failed), failed) ==> live == old(live) && mapped == old(mapped)
      ensures Stale(old(errorCode), old(failed), failed) && old(table)[d].chunks != [] ==>
                OneLeaked(old(live), live, table[d].handles, old(table)[d].chunks) && mapped == old(mapped)
      ensures Attempted(old(St()), St(), d, old(table)[d].chunks)
      ensures ok && d in old(core).table && old(Intact(core, St())) ==> Intact(core, St())
    {
      assert Shaped(St(), d);
      MapRecord(d);
      ok := errorCode == 0;
      errorCode := 0;
      AwakeIsMapped(core, old(St()), d);
      ghost var complete := Complete(old(errorCode), old(failed), failed);
      ConcludeWake(core, old(St()), St(), d, complete);
      core := AfterWake(core, old(St()), St(), d, complete);
    }

    /** Creates and maps the chunks of a record, in the handle cells that the record points to. */
    method MapRecord(d: nat)
      requires d in table && Shaped(St(), d)
      modifies this`live, this`mapped, this`errorCode, this`failed, this`grants, this`table
      ensures old(failed) <= failed && (errorCode == 0 <==> old(errorCode) == 0 && failed == old(failed))
      ensures d in table && table == Recelled(old(St()), d, table[d].handles).table
      ensures |table[d].handles| == |old(table)[d].chunks|
      ensures errorCode == 0 ==> grants == old(grants) + [(d, old(table)[d].size)]
      ensures Complete(old(errorCode), old(failed), failed) ==>
                && Created(old(live), live, table[d].handles, old(table)[d].chunks)
                && Placed(old(mapped), mapped, d, old(table)[d].chunks, table[d].handles)
      ensures OneChunkFailed(old(failed), failed) ==> live == old(live) && mapped == old(mapped)
      ensures Stale(old(errorCode), old(failed), failed) && old(table)[d].chunks != [] ==>
                OneLeaked(old(live), live, table[d].handles, old(table)[d].chunks) && mapped == old(mapped)
      ensures failed != old(failed) && failed[|old(failed)|] == Access ==> failed == old(failed) + [Access]
      ensures Attempted(old(St()), St(), d, old(table)[d].chunks)
      ensures old(table)[d].chunks != [] && d in old(mapped) ==> mapped == old(mapped)
    {
      var record := table[d];
      var cells := new nat[|record.handles|](i requires 0 <= i < |record.handles| => record.handles[i]);
      CreateAndMap(d, record.size, record.chunks, cells);
      // the record holds the addresses of the handle cells, so it sees what was stored there
      table := table[d := record.(handles := cells[..])];
    }

    /**
      `my_free`.  The record is gone in any case, and every chunk and every handle cell is tried.  When no
      unmapping fails, an awake allocation is gone; its range is freed too if its recorded size is given
      and that call does not fail.  Others are harmed as by sleeping.  Freeing a sleeping allocation leaves
      an error pending.
     */
    method FreeOne(d: nat, size: nat) returns (found: bool)
      requires Valid()
      modifies this
      ensures Valid() && old(failed) <= failed && (found <==> d in old(table))
      ensures !found ==> St() == old(St()) && core == old(core) && errorCode == old(errorCode) && failed == old(failed)
      ensures found ==> table == old(table) - {d} && cells == old(cells) - |old(table)[d].chunks|
      ensures errorCode == 0 <==> old(errorCode) == 0 && failed == old(failed)
      ensures found ==> AllTried(old(failed), failed, old(St()), St(), d, old(table)[d].chunks, old(table)[d].handles)
      ensures found && NoUnmapFailed(old(failed), failed) ==>
                mapped == old(mapped) - Addresses(d, old(table)[d].chunks)
      ensures found && NoReleaseFailed(old(failed), failed) ==> live == old(live) - SetOf(old(table)[d].handles)
      ensures found ==>
                reserved == if FailedSince(old(failed), failed, FreeRange) then old(reserved) else old(reserved) - {d}
      ensures d in old(core).table && !FailedSince(old(failed), failed, FreeRange) ==> size == old(table)[d].size
      ensures found ==> core == AfterFree(old(core), d, old(St()), St())
      ensures d in old(core).awake && NoUnmapFailed(old(failed), failed) ==> Performed(old(core), Op.Free(d), core)
      ensures found ==> forall e :: e in old(core).awake && e != d ==>
                (e in core.awake <==> e !in Damaged(old(core), St()))
      ensures forall e :: e in old(core).table && e !in old(core).awake && e != d ==>
                e in core.table && e !in core.awake
      ensures found ==> Damaged(old(core), St()) <= Harmed(old(core), d, old(table)[d].chunks, old(table)[d].handles)
      ensures found && NoLuck(old(failed), failed, old(core), d, old(table)[d].chunks, old(table)[d].handles) ==>
                Damaged(old(core), St()) == Harmed(old(core), d, old(table)[d].chunks, old(table)[d].handles)
      ensures d in old(core).awake ==> Harmed(old(core), d, old(table)[d].chunks, old(table)[d].handles) == {d}
      ensures d in old(core).table && d !in old(core).awake ==> errorCode != 0
      ensures found && errorCode == 0 && old(Intact(core, St())) ==> Intact(core, St())
    {
      if d !in table {
        return false;
      }
      found := true;
      SleeperIsNotMapped(core, St(), d);
      ghost var mid := GiveBack(d, size);
      ConcludeFree(core, old(failed), failed, old(St()), mid, St(), d);
      core := AfterFree(core, d, old(St()), St());
    }

    /** The part of `my_free` that drops the record and gives everything back to the driver. */
    method GiveBack(d: nat, size: nat) returns (ghost mid: State)
      requires d in table
      modifies this`live, this`mapped, this`reserved, this`errorCode, this`failed, this`table, this`cells
      ensures old(failed) <= failed && (errorCode == 0 <==> old(errorCode) == 0 && failed == old(failed))
      ensures cells == old(cells) - |old(table)[d].chunks|
      ensures mid == State(live, mapped, old(reserved), old(table), {}) && table == old(table) - {d}
      ensures Lessened(old(St()), mid, d, old(table)[d].chunks, old(table)[d].handles) && FreedOrNot(mid, St(), d)
      ensures AllTried(old(failed), failed, old(St()), mid, d, old(table)[d].chunks, old(table)[d].handles)
      ensures NoUnmapFailed(old(failed), failed) ==>
                && mapped == old(mapped) - Addresses(d, old(table)[d].chunks)
                && Addresses(d, old(table)[d].chunks) <= old(mapped).Keys
      ensures NoReleaseFailed(old(failed), failed) ==> live == old(live) - SetOf(old(table)[d].handles)
      ensures if FailedSince(old(failed), failed, FreeRange) then reserved == old(reserved)
              else d in old(reserved) && old(reserved)[d] == size && reserved == old(reserved) - {d}
    {
      var record := table[d];
      table := table - {d};
      UnmapAndRelease(d, record.chunks, record.handles);
      ghost var f1 := failed;
      var status := AddressFree(d, size);
      Check(status);
      FreeCells(|record.chunks|);
      mid := State(live, mapped, old(reserved), old(table), {});
      TriedBefore(old(failed), f1, failed, old(St()), mid, d, record.chunks, record.handles);
    }
  }

  lemma LogStuck(f0: seq<Call>, f: seq<Call>, stuck: set<nat>, a: nat)
    requires f0 <= f && forall b :: b in stuck ==> FailedSince(f0, f, Unmap(b))
    ensures forall b :: b in stuck + {a} ==> FailedSince(f0, f + [Unmap(a)], Unmap(b))
  {
    assert (f + [Unmap(a)])[|f|] == Unmap(a);
    forall b | b in stuck ensures FailedSince(f0, f + [Unmap(a)], Unmap(b)) {
      FailedWider(f0, f0, f, f + [Unmap(a)], Unmap(b));
    }
  }

  lemma EachTried(f0: seq<Call>, f: seq<Call>, before: map<nat, Mapping>, after: map<nat, Mapping>, all: set<nat>,
                  gone: set<nat>, stuck: set<nat>)
    requires gone <= all <= gone + stuck && gone <= before.Keys && after == before - gone
    requires forall a :: a in stuck ==> FailedSince(f0, f, Unmap(a))
    ensures forall a :: a in all ==> UnmapTried(f0, f, before, after, a)
    ensures SubMap(after, before) && forall a :: a in before && a !in all ==> a in after
    ensures stuck == {} ==> after == before - all && all <= before.Keys
  {
  }

  lemma LogHeld(f0: seq<Call>, f: seq<Call>, stuck: set<nat>, h: nat)
    requires f0 <= f && forall g :: g in stuck ==> FailedSince(f0, f, Release(g))
    ensures forall g :: g in stuck + {h} ==> FailedSince(f0, f + [Release(h)], Release(g))
  {
    assert (f + [Release(h)])[|f|] == Release(h);
    forall g | g in stuck ensures FailedSince(f0, f + [Release(h)], Release(g)) {
      FailedWider(f0, f0, f, f + [Release(h)], Release(g));
    }
  }

  /** Contexts, then unmapping, then releasing: what each part says holds over all of them. */
  lemma TriedInTurn(f0: seq<Call>, f1: seq<Call>, f2: seq<Call>, f3: seq<Call>, s: State, t: State,
                    base: nat, chunks: seq<nat>, handles: seq<nat>)
    requires OnlyContext(f0, f1) && f1 <= f2 <= f3
    requires forall i :: |f1| <= i < |f2| ==> f2[i].Unmap?
    requires forall i :: |f2| <= i < |f3| ==> f3[i].Release?
    requires forall a :: a in Addresses(base, chunks) ==> UnmapTried(f1, f2, s.mapped, t.mapped, a)
    requires forall h :: h in handles ==> ReleaseTried(f2, f3, s.live, t.live, h)
    ensures AllTried(f0, f3, s, t, base, chunks, handles) && !FailedSince(f0, f3, FreeRange)
    ensures NoUnmapFailed(f0, f3) ==> f1 == f2
    ensures NoReleaseFailed(f0, f3) ==> f2 == f3
  {
    forall a | a in Addresses(base, chunks) ensures UnmapTried(f0, f3, s.mapped, t.mapped, a) {
      if FailedSince(f1, f2, Unmap(a)) { FailedWider(f0, f1, f2, f3, Unmap(a)); }
    }
    forall h | h in handles ensures ReleaseTried(f0, f3, s.live, t.live, h) {
      if FailedSince(f2, f3, Release(h)) { FailedWider(f0, f2, f3, f3, Release(h)); }
    }
    forall i | |f0| <= i < |f3| ensures f3[i] != FreeRange {
      assert i < |f1| ==> f3[i] == f1[i];
      assert i < |f2| ==> f3[i] == f2[i];
    }
    if |f1| < |f2| { assert f2[|f1|] == f3[|f1|]; }
    if |f2| < |f3| { assert f3[|f2|].Release?; }
  }

  /** What was tried before a last call stays tried. */
  lemma TriedBefore(f0: seq<Call>, f1: seq<Call>, f2: seq<Call>, s: State, t: State, base: nat, chunks: seq<nat>,
                    handles: seq<nat>)
    requires f0 <= f1 && (f2 == f1 || f2 == f1 + [FreeRange]) && !FailedSince(f0, f1, FreeRange)
    requires AllTried(f0, f1, s, t, base, chunks, handles)
    ensures AllTried(f0, f2, s, t, base, chunks, handles) && (FailedSince(f0, f2, FreeRange) <==> f2 != f1)
    ensures NoUnmapFailed(f0, f2) ==> NoUnmapFailed(f0, f1)
    ensures NoReleaseFailed(f0, f2) ==> NoReleaseFailed(f0, f1)
  {
    forall a | a in Addresses(base, chunks) ensures UnmapTried(f0, f2, s.mapped, t.mapped, a) {
      assert UnmapTried(f0, f1, s.mapped, t.mapped, a);
      if FailedSince(f0, f1, Unmap(a)) { FailedWider(f0, f0, f1, f2, Unmap(a)); }
    }
    forall h | h in handles ensures ReleaseTried(f0, f2, s.live, t.live, h) {
      assert ReleaseTried(f0, f1, s.live, t.live, h);
      if FailedSince(f0, f1, Release(h)) { FailedWider(f0, f0, f1, f2, Release(h)); }
    }
    if f2 != f1 { assert f2[|f1|] == FreeRange; }
    assert forall i :: 0 <= i < |f1| ==> f1[i] == f2[i];
  }

  /** A successful allocation in a state without debris leaves none. */
  lemma MallocIntact(c: State, s: State, t: State, d: nat)
    requires d in t.table && Can(c, Op.Malloc(d, t.table[d])) && t.awake == s.awake
    requires t.table == s.table[d := t.table[d]] && t.reserved == s.reserved[d := t.table[d].size]
    requires Created(s.live, t.live, t.table[d].handles, t.table[d].chunks)
    requires Placed(s.mapped, t.mapped, d, t.table[d].chunks, t.table[d].handles)
    ensures Intact(c, s) ==> Intact(Do(c, Op.Malloc(d, t.table[d])), t)
  {
  }

  /** What an allocation does to the good part: it is added when its chunks are there, and nothing happens otherwise. */
  lemma AfterMalloc(c: State, s: State, m: State, t: State, d: nat, complete: bool) returns (c': State)
    requires Holds(c, s) && d in t.table && Reservable(s.reserved, d, t.table[d].size) && t.awake == s.awake
    requires t.table == s.table[d := t.table[d]] && m.table == t.table && m.awake == t.awake
    requires Attempted(s.(reserved := s.reserved[d := t.table[d].size]), m, d, t.table[d].chunks)
    requires FreedOrNot(m, t, d) && t == m.(reserved := t.reserved)
    requires |t.table[d].handles| == |t.table[d].chunks| && Positive(t.table[d].chunks)
    requires t.table[d].chunks != [] ==> Sum(t.table[d].chunks) == t.table[d].size
    requires complete ==> t.table[d].chunks != [] && t.reserved == s.reserved[d := t.table[d].size]
                          && Created(s.live, t.live, t.table[d].handles, t.table[d].chunks)
                          && Placed(s.mapped, t.mapped, d, t.table[d].chunks, t.table[d].handles)
    ensures Holds(c', t)
    ensures complete ==> Performed(c, Op.Malloc(d, t.table[d]), c') && (Intact(c, s) ==> Intact(c', t))
    ensures !complete ==> c' == c
  {
    if complete {
      MallocHolds(c, s, t, d);
      MallocIntact(c, s, t, d);
      c' := Do(c, Op.Malloc(d, t.table[d]));
    } else {
      ReserveHolds(c, s, d, t.table[d].size);
      FailedMallocHolds(c, s.(reserved := s.reserved[d := t.table[d].size]), m, t, d);
      c' := c;
    }
  }

  /** What sleeping one record does to the good part. */
  lemma ConcludeSleep(c: State, f0: seq<Call>, f1: seq<Call>, s: State, t: State, d: nat)
    requires Holds(c, s) && d in s.table && Lessened(s, t, d, s.table[d].chunks, s.table[d].handles)
    requires AllTried(f0, f1, s, t, d, s.table[d].chunks, s.table[d].handles)
    ensures Holds(AfterSleep(c, d, s, t), t)
    ensures d in c.awake && t.mapped == s.mapped - Addresses(d, s.table[d].chunks) ==>
              Performed(c, Op.Sleep(d), AfterSleep(c, d, s, t))
    ensures forall e :: e in c.awake && e != d ==> (e in AfterSleep(c, d, s, t).awake <==> e !in Damaged(c, t))
    ensures Damaged(c, t) <= Harmed(c, d, s.table[d].chunks, s.table[d].handles)
    ensures NoLuck(f0, f1, c, d, s.table[d].chunks, s.table[d].handles) ==>
              Damaged(c, t) == Harmed(c, d, s.table[d].chunks, s.table[d].handles)
    ensures d in c.awake ==> Harmed(c, d, s.table[d].chunks, s.table[d].handles) == {d}
    ensures d in c.awake && t.mapped == s.mapped - Addresses(d, s.table[d].chunks) ==>
              d in c.table && c.table[d] == s.table[d] && AfterSleep(c, d, s, t) == Asleep(c, d)
  {
    AfterSleepHolds(c, s, t, d);
    forall e | e in c.awake && e != d ensures e in AfterSleep(c, d, s, t).awake <==> e !in Damaged(c, t) {
      AfterSleepOthers(c, s, t, d, e);
    }
    if NoLuck(f0, f1, c, d, s.table[d].chunks, s.table[d].handles) {
      AllHarmed(f0, f1, c, s, t, d, s.table[d].chunks, s.table[d].handles);
    }
    if d in c.awake { AwakeHoldsAll(c, s, d); }
  }

  /** Beyond what sleeping does to others, freeing does nothing to them. */
  lemma FreeingKeepsOthers(c: State, s: State, m: State, d: nat, e: nat)
    requires e != d
    ensures e in AfterFree(c, d, s, m).awake <==> e in AfterSleep(c, d, s, m).awake
    ensures e in c.table && e !in c.awake ==> e in AfterFree(c, d, s, m).table && e !in AfterFree(c, d, s, m).awake
  {
  }

  /** What freeing one record does to the good part. */
  lemma ConcludeFree(c: State, f0: seq<Call>, f1: seq<Call>, s: State, m: State, t: State, d: nat)
    requires Holds(c, s) && d in s.table && Lessened(s, m, d, s.table[d].chunks, s.table[d].handles)
    requires AllTried(f0, f1, s, m, d, s.table[d].chunks, s.table[d].handles)
    requires FreedOrNot(m, t, d) && t == m.(reserved := t.reserved, table := m.table - {d})
    ensures Holds(AfterFree(c, d, s, t), t)
    ensures d in c.awake && t.mapped == s.mapped - Addresses(d, s.table[d].chunks) ==>
              Performed(c, Op.Free(d), AfterFree(c, d, s, t))
              && d in c.table && c.table[d] == s.table[d] && AfterFree(c, d, s, t) == Unregistered(Asleep(c, d), d)
    ensures forall e :: e in c.awake && e != d ==> (e in AfterFree(c, d, s, t).awake <==> e !in Damaged(c, t))
    ensures forall e :: e in c.table && e !in c.awake && e != d ==>
              e in AfterFree(c, d, s, t).table && e !in AfterFree(c, d, s, t).awake
    ensures Damaged(c, t) <= Harmed(c, d, s.table[d].chunks, s.table[d].handles)
    ensures NoLuck(f0, f1, c, d, s.table[d].chunks, s.table[d].handles) ==>
              Damaged(c, t) == Harmed(c, d, s.table[d].chunks, s.table[d].handles)
    ensures d in c.awake ==> Harmed(c, d, s.table[d].chunks, s.table[d].handles) == {d}
  {
    ConcludeSleep(c, f0, f1, s, m, d);
    AfterFreeHolds(c, s, m, t, d);
    SameAfterSleep(c, d, s, m, t);
    forall e | e in c.table && e != d
      ensures e in AfterFree(c, d, s, t).awake <==> e in AfterSleep(c, d, s, m).awake
      ensures e !in c.awake ==> e in AfterFree(c, d, s, t).table && e !in AfterFree(c, d, s, t).awake
    {
      FreeingKeepsOthers(c, s, m, d, e);
    }
    if d in c.awake && t.mapped == s.mapped - Addresses(d, s.table[d].chunks) {
      AwakeHoldsAll(c, s, d);
      AfterFreePerforms(c, s, t, d);
    }
  }

  /** What waking one record does to the good part. */
  lemma ConcludeWake(c: State, s: State, t: State, d: nat, complete: bool)
    requires Holds(c, s) && d in s.table && d in t.table && |t.table[d].handles| == |s.table[d].chunks|
    requires Attempted(s, t, d, s.table[d].chunks) && t.table == Recelled(s, d, t.table[d].handles).table
    requires d in c.awake ==> t.mapped == s.mapped && !complete
    requires complete ==> Created(s.live, t.live, t.table[d].handles, s.table[d].chunks)
                          && Placed(s.mapped, t.mapped, d, s.table[d].chunks, t.table[d].handles)
    ensures d in c.table ==> c.table[d] == s.table[d]
    ensures Holds(AfterWake(c, s, t, d, complete), t)
    ensures d in c.table && complete ==>
              Performed(c, Op.Wake(d, t.table[d].handles), AfterWake(c, s, t, d, complete))
    ensures d in c.table ==> forall e :: e in c.table && e != d ==>
              e in AfterWake(c, s, t, d, complete).table
              && (e in AfterWake(c, s, t, d, complete).awake <==> e in c.awake)
    ensures d in c.table && d !in c.awake && t.mapped == s.mapped && !complete ==>
              d in AfterWake(c, s, t, d, complete).table && d !in AfterWake(c, s, t, d, complete).awake
    ensures d in c.table && complete && s.awake == t.awake && Intact(c, s) ==>
              Intact(AfterWake(c, s, t, d, complete), t)
  {
    AfterWakeHolds(c, s, t, d, complete);
  }

  lemma NothingPlaced(before: map<nat, Mapping>, after: map<nat, Mapping>, d: nat, chunks: seq<nat>,
                      handles: seq<nat>)
    requires |chunks| == |handles|
    ensures chunks == [] && Placed(before, after, d, chunks, handles) ==> after == before
  {
  }

  lemma FirstAndNext(s: seq<nat>, t: seq<nat>, i: nat)
    requires |s| == |t| && i < |s| && t == s[i := t[i]]
    ensures t[..i + 1] == s[..i] + [t[i]]
  {
  }

  /** One more chunk has its handle. */
  lemma CreateStep(before: map<nat, nat>, mid: map<nat, nat>, after: map<nat, nat>, hs: seq<nat>, hs': seq<nat>,
                   chunks: seq<nat>, i: nat)
    requires |hs| == |hs'| == |chunks| && i < |chunks| && Created(before, mid, hs[..i], chunks[..i])
    requires hs' == hs[i := hs'[i]] && hs'[i] !in mid && after == mid[hs'[i] := chunks[i]]
    ensures Created(before, after, hs'[..i + 1], chunks[..i + 1])
  {
    FirstAndNext(hs, hs', i);
    FirstAndNext(chunks, chunks, i);
    CreateOneMore(before, mid, hs[..i], chunks[..i], hs'[i], chunks[i]);
  }

  /** Releasing some of the handles created leaves those from before. */
  lemma KeptHandles(before: map<nat, nat>, mid: map<nat, nat>, after: map<nat, nat>, handles: seq<nat>,
                    chunks: seq<nat>, released: bool)
    requires Created(before, mid, handles, chunks)
    ensures mid - SetOf(handles) == before && (chunks != [] ==> mid != before)
    ensures released && SubMap(after, mid) && (forall h :: h in mid && h !in handles ==> h in after) ==>
              SubMap(before, after)
  {
    UndoCreated(before, mid, handles, chunks);
    if chunks != [] { assert SizedAt(mid, handles, chunks, 0); }
    forall h | h in before ensures h in mid && h !in handles && mid[h] == before[h] {
      assert h in mid - SetOf(handles);
    }
  }

  /** A range in which chunks are mapped overlaps the first of them. */
  lemma MappedRangeIsInUse(before: map<nat, Mapping>, after: map<nat, Mapping>, d: nat, size: nat, chunks: seq<nat>,
                           handles: seq<nat>)
    requires |chunks| == |handles| && chunks != [] && Positive(chunks) && size > 0
    requires Placed(before, after, d, chunks, handles)
    ensures d in after && Overlap(d, after[d].size, d, size)
  {
    FirstAddress(d, chunks);
    var i := AddressIndex(d, chunks, handles, d);
  }

  /** A sleeping allocation in good standing is nowhere mapped. */
  lemma SleeperIsNotMapped(c: State, s: State, d: nat)
    requires Holds(c, s)
    ensures d in c.table && d !in c.awake ==> d in s.table && !(Addresses(d, s.table[d].chunks) <= s.mapped.Keys)
  {
    if d in c.table {
      assert Recorded(c, d) && s.table[d] == c.table[d];
      FirstAddress(d, c.table[d].chunks);
      if d in s.mapped {
        MappedOwnAddress(c, s, d);
      }
    }
  }

  lemma MappedOwnAddress(c: State, s: State, d: nat)
    requires Holds(c, s) && d in c.table && d in s.mapped
    ensures d in c.awake
  {
    assert Recorded(c, d) && Within(c.reserved, d, d) && Within(s.reserved, d, d);
    if d in c.mapped {
      assert AddressOwned(c, d);
      var e :| OwnsAddress(c, e, d);
      AddressInside(c, e, d);
      OneRange(c, d, e, d);
    } else {
      assert Stray(c, s, d);
      var e :| e !in c.reserved && Within(s.reserved, e, d);
      OneRange(s, d, e, d);
    }
  }

  /** An awake allocation in good standing is mapped at its own address. */
  lemma AwakeIsMapped(c: State, s: State, d: nat)
    requires Holds(c, s)
    ensures d in c.awake ==> d in s.table && s.table[d].chunks != [] && d in s.mapped
  {
    if d in c.awake {
      assert Backed(c, d) && s.table[d] == c.table[d];
      FirstAddress(d, c.table[d].chunks);
    }
  }
}
