/**
  The state that the driver and the Python-side table are in together, the operations on it, and what
  holds over every run of successful operations.
 */
module AllocatorState {
  import opened ChunkArithmetic
  import opened Basics

  /** A mapped piece of address space: its length and the physical handle behind it. */
  datatype Mapping = Mapping(size: nat, handle: nat)

  /** What the Python side records of an allocation; `handles` are the contents of its handle cells. */
  datatype Allocation = Allocation(size: nat, chunks: seq<nat>, handles: seq<nat>)

  // ----- Where the chunks of an allocation are mapped

  /** The addresses of consecutive chunks from base on. */
  function Addresses(base: nat, chunks: seq<nat>): set<nat> {
    if chunks == [] then {}
    else
      var n := |chunks| - 1;
      Addresses(base, chunks[..n]) + {base + Sum(chunks[..n])}
  }

  /** Chunk i mapped at the sum of the preceding chunk sizes. */
  function Layout(base: nat, chunks: seq<nat>, handles: seq<nat>): (m: map<nat, Mapping>)
    requires |chunks| == |handles|
    ensures m.Keys == Addresses(base, chunks)
  {
    if chunks == [] then map[]
    else
      var n := |chunks| - 1;
      Layout(base, chunks[..n], handles[..n])[base + Sum(chunks[..n]) := Mapping(chunks[n], handles[n])]
  }

  function SetOf(s: seq<nat>): set<nat> { set x | x in s }

  predicate Positive(chunks: seq<nat>) { forall i :: 0 <= i < |chunks| ==> chunks[i] > 0 }

  predicate Overlap(a: nat, m: nat, b: nat, n: nat) { a < b + n && b < a + m }

  /** A range that the driver can map: inside one reservation and apart from all mapped ranges. */
  predicate Mappable(mapped: map<nat, Mapping>, reserved: map<nat, nat>, addr: nat, size: nat) {
    && size > 0 && addr !in mapped
    && (exists d :: d in reserved && d <= addr && addr + size <= d + reserved[d])
    && (forall a :: a in mapped ==> !Overlap(a, mapped[a].size, addr, size))
  }

  /** Handle i created with the size of chunk i. */
  function Sizes(handles: seq<nat>, chunks: seq<nat>): (m: map<nat, nat>)
    requires |chunks| == |handles|
    ensures m.Keys == SetOf(handles)
  {
    if handles == [] then map[]
    else
      var n := |handles| - 1;
      assert SetOf(handles) == SetOf(handles[..n]) + {handles[n]};
      Sizes(handles[..n], chunks[..n])[handles[n] := chunks[n]]
  }

  lemma {:induction false} SizesAt(handles: seq<nat>, chunks: seq<nat>, i: nat)
    requires |chunks| == |handles| && Distinct(handles) && i < |handles|
    ensures handles[i] in Sizes(handles, chunks) && Sizes(handles, chunks)[handles[i]] == chunks[i]
  {
    var n := |handles| - 1;
    if i < n {
      SizesAt(handles[..n], chunks[..n], i);
    }
  }

  /** Handle i is live and has the size of chunk i. */
  predicate SizedAt(live: map<nat, nat>, handles: seq<nat>, chunks: seq<nat>, i: nat)
    requires i < |chunks| == |handles|
  {
    handles[i] in live && live[handles[i]] == chunks[i]
  }

  /** The handles are new, distinct, created with the sizes of the chunks, and the only change to the live ones. */
  ghost predicate Created(before: map<nat, nat>, after: map<nat, nat>, handles: seq<nat>, chunks: seq<nat>) {
    && |chunks| == |handles| && Distinct(handles)
    && (forall i :: 0 <= i < |handles| ==> handles[i] !in before)
    && (forall i :: 0 <= i < |handles| ==> SizedAt(after, handles, chunks, i))
    && after == before + Sizes(handles, chunks)
  }

  lemma SizesSnoc(handles: seq<nat>, chunks: seq<nat>, h: nat, size: nat)
    requires |chunks| == |handles|
    ensures Sizes(handles + [h], chunks + [size]) == Sizes(handles, chunks)[h := size]
  {
    assert (handles + [h])[..|handles|] == handles && (chunks + [size])[..|chunks|] == chunks;
  }

  lemma AddEntry(m: map<nat, nat>, n: map<nat, nat>, k: nat, v: nat)
    ensures (m + n)[k := v] == m + n[k := v]
  {
  }

  lemma CreateOneMore(before: map<nat, nat>, after: map<nat, nat>, handles: seq<nat>, chunks: seq<nat>, h: nat,
                      size: nat)
    requires Created(before, after, handles, chunks) && h !in after
    ensures Created(before, after[h := size], handles + [h], chunks + [size])
  {
    var hs, cs := handles + [h], chunks + [size];
    SizesSnoc(handles, chunks, h, size);
    AddEntry(before, Sizes(handles, chunks), h, size);
    assert h !in handles;
    DistinctConcat(handles, [h]);
    var live := after[h := size];
    forall i | 0 <= i < |hs| ensures SizedAt(live, hs, cs, i) {
      if i < |handles| { assert SizedAt(after, handles, chunks, i); }
    }
  }

  lemma FreshCreated(live: map<nat, nat>, handles: seq<nat>, chunks: seq<nat>)
    requires |chunks| == |handles| && Distinct(handles) && forall i :: 0 <= i < |handles| ==> handles[i] !in live
    ensures Created(live, live + Sizes(handles, chunks), handles, chunks)
  {
    forall i | 0 <= i < |handles| ensures SizedAt(live + Sizes(handles, chunks), handles, chunks, i) {
      SizesAt(handles, chunks, i);
    }
  }

  lemma UndoCreated(before: map<nat, nat>, after: map<nat, nat>, handles: seq<nat>, chunks: seq<nat>)
    requires Created(before, after, handles, chunks)
    ensures after - SetOf(handles) == before
  {
  }

  /** The chunks are laid out where nothing was mapped before, and nothing else changed. */
  ghost predicate Placed(before: map<nat, Mapping>, after: map<nat, Mapping>, base: nat, chunks: seq<nat>,
                         handles: seq<nat>)
    requires |chunks| == |handles|
  {
    && Addresses(base, chunks) !! before.Keys
    && after == before + Layout(base, chunks, handles)
  }

  lemma {:induction false} AddressesOfPrefix(base: nat, chunks: seq<nat>, i: nat)
    requires i <= |chunks|
    ensures Addresses(base, chunks[..i]) <= Addresses(base, chunks)
  {
    var n := |chunks| - 1;
    if i <= n {
      AddressesOfPrefix(base, chunks[..n], i);
      assert chunks[..n][..i] == chunks[..i];
    } else {
      assert chunks[..i] == chunks;
    }
  }

  lemma UndoPlaced(before: map<nat, Mapping>, after: map<nat, Mapping>, base: nat, chunks: seq<nat>, handles: seq<nat>)
    requires |chunks| == |handles| && Placed(before, after, base, chunks, handles)
    ensures after - Addresses(base, chunks) == before
  {
  }

  lemma PlaceOneMore(before: map<nat, Mapping>, after: map<nat, Mapping>, base: nat, chunks: seq<nat>,
                     handles: seq<nat>, i: nat)
    requires |chunks| == |handles| && i < |chunks| && Placed(before, after, base, chunks[..i], handles[..i])
    requires base + Sum(chunks[..i]) !in after
    ensures Placed(before, after[base + Sum(chunks[..i]) := Mapping(chunks[i], handles[i])],
                   base, chunks[..i + 1], handles[..i + 1])
  {
    assert chunks[..i + 1][..i] == chunks[..i] && handles[..i + 1][..i] == handles[..i];
  }

  // ----- The driver and the table together

  /** `live` gives the size of every physical handle. */
  datatype State = State(live: map<nat, nat>, mapped: map<nat, Mapping>, reserved: map<nat, nat>,
                         table: map<nat, Allocation>, awake: set<nat>)

  const Initial := State(map[], map[], map[], map[], {})

  predicate WellSized(a: Allocation) {
    a.size > 0 && Sum(a.chunks) == a.size && Positive(a.chunks) && |a.handles| == |a.chunks|
  }

  predicate OwnsHandle(s: State, d: nat, h: nat) { d in s.awake && d in s.table && h in s.table[d].handles }

  predicate OwnsAddress(s: State, d: nat, a: nat) {
    d in s.awake && d in s.table && a in Addresses(d, s.table[d].chunks)
  }

  predicate Apart(s: State, d: nat, e: nat) {
    d in s.reserved && e in s.reserved && d != e ==> !Overlap(d, s.reserved[d], e, s.reserved[e])
  }

  /** The record of an allocation agrees with its reservation. */
  predicate Recorded(s: State, d: nat) {
    d in s.table && d in s.reserved && WellSized(s.table[d]) && s.reserved[d] == s.table[d].size
  }

  /** An awake allocation is mapped chunk by chunk, through handles of its own that have the chunks' sizes. */
  ghost predicate Backed(s: State, d: nat) {
    && Recorded(s, d) && Distinct(s.table[d].handles)
    && (forall i :: 0 <= i < |s.table[d].handles| ==> SizedAt(s.live, s.table[d].handles, s.table[d].chunks, i))
    && forall a :: a in Addresses(d, s.table[d].chunks) ==>
         a in s.mapped && s.mapped[a] == Layout(d, s.table[d].chunks, s.table[d].handles)[a]
  }

  /** Records and reservations agree, and reservations do not overlap. */
  ghost predicate Tables(s: State) {
    && s.table.Keys == s.reserved.Keys
    && (forall d :: d in s.table ==> Recorded(s, d))
    && (forall d, e :: Apart(s, d, e))
  }

  /** Exactly the awake allocations own handles and mapped addresses, each its own. */
  ghost predicate Owners(s: State) {
    && s.awake <= s.table.Keys
    && (forall d :: d in s.awake ==> Backed(s, d))
    && (forall h :: HandleOwned(s, h))
    && (forall a :: AddressOwned(s, a))
  }

  /** A handle is live exactly when an awake allocation owns it, and only one does. */
  ghost predicate HandleOwned(s: State, h: nat) {
    && (h in s.live <==> exists d :: OwnsHandle(s, d, h))
    && (forall d, e :: OwnsHandle(s, d, h) && OwnsHandle(s, e, h) ==> d == e)
  }

  ghost predicate AddressOwned(s: State, a: nat) {
    a in s.mapped <==> exists d :: OwnsAddress(s, d, a)
  }

  ghost predicate Inv(s: State) { Tables(s) && Owners(s) }

  // ----- Addresses of one allocation

  lemma {:induction false} SumOfPrefix(chunks: seq<nat>, i: nat)
    requires i < |chunks|
    ensures Sum(chunks[..i]) + chunks[i] <= Sum(chunks)
    ensures Sum(chunks[..i + 1]) == Sum(chunks[..i]) + chunks[i]
  {
    var n := |chunks| - 1;
    assert chunks[..i + 1][..i] == chunks[..i];
    if i == n {
      assert chunks[..n + 1] == chunks;
    } else {
      SumOfPrefix(chunks[..n], i);
      assert chunks[..n][..i] == chunks[..i];
    }
  }

  /** A chunk address lies inside the range, and its mapping is that of one of the chunks. */
  lemma {:induction false} AddressIndex(base: nat, chunks: seq<nat>, handles: seq<nat>, a: nat) returns (i: nat)
    requires |chunks| == |handles| && Positive(chunks) && a in Addresses(base, chunks)
    ensures i < |chunks| && a == base + Sum(chunks[..i])
    ensures Layout(base, chunks, handles)[a] == Mapping(chunks[i], handles[i])
    ensures base <= a && a + chunks[i] <= base + Sum(chunks)
  {
    var n := |chunks| - 1;
    if a == base + Sum(chunks[..n]) {
      i := n;
    } else {
      i := AddressIndex(base, chunks[..n], handles[..n], a);
      assert chunks[..n][..i] == chunks[..i];
    }
    SumOfPrefix(chunks, i);
  }

  /** Pieces of one allocation do not overlap. */
  lemma {:induction false} PiecesApart(base: nat, chunks: seq<nat>, i: nat, j: nat)
    requires i < j < |chunks|
    ensures base + Sum(chunks[..i]) + chunks[i] <= base + Sum(chunks[..j])
  {
    SumOfPrefix(chunks[..j], i);
    assert chunks[..j][..i] == chunks[..i];
  }

  /** Offset x lies in piece i. */
  predicate InPiece(chunks: seq<nat>, i: nat, x: nat)
    requires i < |chunks|
  {
    Sum(chunks[..i]) <= x < Sum(chunks[..i]) + chunks[i]
  }

  /** Every offset below the total lies in exactly one piece: there is no gap and no overlap. */
  lemma {:induction false} EveryOffsetInOnePiece(chunks: seq<nat>, x: nat) returns (i: nat)
    requires x < Sum(chunks)
    ensures i < |chunks| && InPiece(chunks, i, x)
    ensures forall j :: 0 <= j < |chunks| && InPiece(chunks, j, x) ==> j == i
  {
    i := PieceOf(chunks, x);
    forall j | 0 <= j < |chunks| && InPiece(chunks, j, x) ensures j == i {
      if i < j { PiecesApart(0, chunks, i, j); } else if j < i { PiecesApart(0, chunks, j, i); }
    }
  }

  lemma {:induction false} PieceOf(chunks: seq<nat>, x: nat) returns (i: nat)
    requires x < Sum(chunks)
    ensures i < |chunks| && InPiece(chunks, i, x)
  {
    var n := |chunks| - 1;
    if x < Sum(chunks[..n]) {
      i := PieceOf(chunks[..n], x);
      assert chunks[..n][..i] == chunks[..i];
    } else {
      i := n;
    }
  }

  /** The address belongs to the reservation of its owner. */
  lemma AddressInside(s: State, d: nat, a: nat)
    requires Inv(s) && OwnsAddress(s, d, a)
    ensures a in s.mapped && d in s.reserved && s.mapped[a].size > 0
    ensures d <= a && a + s.mapped[a].size <= d + s.reserved[d]
  {
    assert Backed(s, d);
    var i := AddressIndex(d, s.table[d].chunks, s.table[d].handles, a);
  }

  // ----- What the invariant means

  /** A mapped range lies inside the reservation of an awake allocation. */
  ghost predicate InOwnReservation(s: State, a: nat)
    requires a in s.mapped
  {
    exists d :: d in s.awake && d in s.reserved && d <= a && a + s.mapped[a].size <= d + s.reserved[d]
  }

  /** Mapped ranges lie inside the reservation of their own awake allocation and do not overlap. */
  lemma MappedRangesAreApart(s: State, a: nat, b: nat)
    requires Inv(s) && a in s.mapped && b in s.mapped
    ensures InOwnReservation(s, a)
    ensures a != b ==> a + s.mapped[a].size <= b || b + s.mapped[b].size <= a
  {
    assert AddressOwned(s, a) && AddressOwned(s, b);
    var d :| OwnsAddress(s, d, a);
    var e :| OwnsAddress(s, e, b);
    AddressInside(s, d, a);
    AddressInside(s, e, b);
    if d != e {
      assert Apart(s, d, e);
    } else if a != b {
      OwnRangesAreApart(s, d, a, b);
    }
  }

  lemma OwnRangesAreApart(s: State, d: nat, a: nat, b: nat)
    requires Inv(s) && OwnsAddress(s, d, a) && OwnsAddress(s, d, b) && a != b
    ensures a in s.mapped && b in s.mapped
    ensures a + s.mapped[a].size <= b || b + s.mapped[b].size <= a
  {
    assert Backed(s, d);
    var chunks := s.table[d].chunks;
    var i := AddressIndex(d, chunks, s.table[d].handles, a);
    var j := AddressIndex(d, chunks, s.table[d].handles, b);
    if i < j { PiecesApart(d, chunks, i, j); } else { PiecesApart(d, chunks, j, i); }
  }

  /** Number of chunks of a set of allocations. */
  ghost function ChunkCount(table: map<nat, Allocation>, ds: set<nat>): nat
    requires ds <= table.Keys
  {
    if ds == {} then 0
    else
      var d := Pick(ds);
      |table[d].chunks| + ChunkCount(table, ds - {d})
  }

  ghost function HandlesOf(s: State, ds: set<nat>): set<nat>
    requires ds <= s.table.Keys
  {
    set d, h | d in ds && h in s.table[d].handles :: h
  }

  lemma {:induction false} DistinctSetSize(handles: seq<nat>)
    requires Distinct(handles)
    ensures |SetOf(handles)| == |handles|
  {
    if handles != [] {
      var n := |handles| - 1;
      DistinctSetSize(handles[..n]);
      assert SetOf(handles) == SetOf(handles[..n]) + {handles[n]};
    }
  }

  lemma {:induction false} HandlesCountChunks(s: State, ds: set<nat>)
    requires Inv(s) && ds <= s.awake
    ensures |HandlesOf(s, ds)| == ChunkCount(s.table, ds)
  {
    if ds == {} {
      assert HandlesOf(s, ds) == {};
    } else {
      var d := Pick(ds);
      var own, rest := SetOf(s.table[d].handles), HandlesOf(s, ds - {d});
      HandlesCountChunks(s, ds - {d});
      assert Backed(s, d);
      DistinctSetSize(s.table[d].handles);
      HandlesOfOneMore(s, ds, d);
      assert HandlesOf(s, ds) == own + rest;
      assert own !! rest;
    }
  }

  /** The handles of one allocation are not those of others. */
  lemma HandlesOfOneMore(s: State, ds: set<nat>, d: nat)
    requires Inv(s) && ds <= s.awake && d in ds
    ensures HandlesOf(s, ds) == SetOf(s.table[d].handles) + HandlesOf(s, ds - {d})
    ensures SetOf(s.table[d].handles) !! HandlesOf(s, ds - {d})
  {
    forall h | h in SetOf(s.table[d].handles) ensures h !in HandlesOf(s, ds - {d}) {
      if h in HandlesOf(s, ds - {d}) {
        var e :| e in ds - {d} && h in s.table[e].handles;
        assert HandleOwned(s, h) && OwnsHandle(s, d, h) && OwnsHandle(s, e, h);
      }
    }
  }

  /** As many driver handles are live as awake allocations have chunks. */
  lemma LiveHandlesAreCounted(s: State)
    requires Inv(s)
    ensures |s.live| == ChunkCount(s.table, s.awake)
    ensures s.live.Keys == HandlesOf(s, s.awake)
  {
    forall h ensures h in s.live <==> h in HandlesOf(s, s.awake) {
      assert HandleOwned(s, h);
      if h in s.live {
        var d :| OwnsHandle(s, d, h);
        assert d in s.awake && h in s.table[d].handles;
      }
      if h in HandlesOf(s, s.awake) {
        var d :| d in s.awake && h in s.table[d].handles;
        assert OwnsHandle(s, d, h);
      }
    }
    assert s.live.Keys == HandlesOf(s, s.awake);
    assert |s.live| == |s.live.Keys|;
    HandlesCountChunks(s, s.awake);
  }

  /** The sizes of some handles, added up. */
  ghost function SizeOf(live: map<nat, nat>, hs: set<nat>): nat
    requires hs <= live.Keys
  {
    if hs == {} then 0
    else
      var h := Pick(hs);
      live[h] + SizeOf(live, hs - {h})
  }

  lemma {:induction false} SizeWithout(live: map<nat, nat>, hs: set<nat>, h: nat)
    requires hs <= live.Keys && h in hs
    ensures SizeOf(live, hs) == live[h] + SizeOf(live, hs - {h})
  {
    var g := Pick(hs);
    if g != h {
      SizeWithout(live, hs - {g}, h);
      SizeWithout(live, hs - {h}, g);
      assert hs - {g} - {h} == hs - {h} - {g};
    }
  }

  lemma {:induction false} SizeOfHandles(live: map<nat, nat>, handles: seq<nat>, chunks: seq<nat>, hs: set<nat>)
    requires |chunks| == |handles| && Distinct(handles) && hs <= live.Keys && SetOf(handles) !! hs
    requires forall i :: 0 <= i < |handles| ==> SizedAt(live, handles, chunks, i)
    ensures SetOf(handles) <= live.Keys
    ensures SizeOf(live, SetOf(handles) + hs) == Sum(chunks) + SizeOf(live, hs)
  {
    if handles == [] {
      assert SetOf(handles) + hs == hs;
    } else {
      var n := |handles| - 1;
      forall i | 0 <= i < n ensures SizedAt(live, handles[..n], chunks[..n], i) {
        assert SizedAt(live, handles, chunks, i);
      }
      assert SizedAt(live, handles, chunks, n);
      assert SetOf(handles) == SetOf(handles[..n]) + {handles[n]};
      SizeOfHandles(live, handles[..n], chunks[..n], hs);
      SizeWithout(live, SetOf(handles) + hs, handles[n]);
      assert SetOf(handles) + hs - {handles[n]} == SetOf(handles[..n]) + hs;
    }
  }

  /** The sizes of some allocations, added up. */
  ghost function SizeOfAll(table: map<nat, Allocation>, ds: set<nat>): nat
    requires ds <= table.Keys
  {
    if ds == {} then 0
    else
      var d := Pick(ds);
      table[d].size + SizeOfAll(table, ds - {d})
  }

  lemma {:induction false} HandlesAddUp(s: State, ds: set<nat>)
    requires Inv(s) && ds <= s.awake
    ensures HandlesOf(s, ds) <= s.live.Keys && SizeOf(s.live, HandlesOf(s, ds)) == SizeOfAll(s.table, ds)
  {
    if ds == {} {
      assert HandlesOf(s, ds) == {};
    } else {
      var d := Pick(ds);
      HandlesAddUp(s, ds - {d});
      assert Backed(s, d);
      HandlesOfOneMore(s, ds, d);
      SizeOfHandles(s.live, s.table[d].handles, s.table[d].chunks, HandlesOf(s, ds - {d}));
    }
  }

  /** The driver holds as many bytes of physical memory as the awake allocations have together. */
  lemma PhysicalMemoryAddsUp(s: State)
    requires Inv(s)
    ensures SizeOf(s.live, s.live.Keys) == SizeOfAll(s.table, s.awake)
  {
    LiveHandlesAreCounted(s);
    HandlesAddUp(s, s.awake);
  }

  /** A mapped piece is as long as the physical handle behind it, and no other piece has that handle. */
  lemma PiecesFitHandles(s: State, a: nat, b: nat)
    requires Inv(s) && a in s.mapped && b in s.mapped
    ensures s.mapped[a].handle in s.live && s.live[s.mapped[a].handle] == s.mapped[a].size
    ensures a != b ==> s.mapped[a].handle != s.mapped[b].handle
  {
    assert AddressOwned(s, a) && AddressOwned(s, b);
    var d, i := OwnPiece(s, a);
    var e, j := OwnPiece(s, b);
    var h := s.mapped[a].handle;
    assert OwnsHandle(s, d, h);
    if h == s.mapped[b].handle {
      assert HandleOwned(s, h) && OwnsHandle(s, e, h);
      assert d == e && i == j;
    }
  }

  /** The piece at a mapped address: whose it is, and which one. */
  lemma {:induction false} LayoutAt(base: nat, chunks: seq<nat>, handles: seq<nat>, i: nat)
    requires |chunks| == |handles| && Positive(chunks) && i < |chunks|
    ensures base + Sum(chunks[..i]) in Addresses(base, chunks)
    ensures Layout(base, chunks, handles)[base + Sum(chunks[..i])] == Mapping(chunks[i], handles[i])
  {
    var n := |chunks| - 1;
    if i < n {
      LayoutAt(base, chunks[..n], handles[..n], i);
      assert chunks[..n][..i] == chunks[..i];
      PiecesApart(base, chunks, i, n);
    }
  }

  /** Every chunk of an awake allocation is mapped at the sum of the preceding ones, through its own handle. */
  lemma ChunkIsMapped(s: State, d: nat, i: nat)
    requires Inv(s) && d in s.awake && d in s.table && i < |s.table[d].chunks|
    ensures |s.table[d].handles| == |s.table[d].chunks|
    ensures var a, h := d + Sum(s.table[d].chunks[..i]), s.table[d].handles[i];
            && a in s.mapped && s.mapped[a].handle == h && s.mapped[a].size == s.table[d].chunks[i]
            && h in s.live && s.live[h] == s.table[d].chunks[i]
  {
    assert Backed(s, d);
    LayoutAt(d, s.table[d].chunks, s.table[d].handles, i);
    assert SizedAt(s.live, s.table[d].handles, s.table[d].chunks, i);
  }

  /** Every live handle is mapped somewhere. */
  lemma LiveHandleIsMapped(s: State, h: nat)
    requires Inv(s) && h in s.live
    ensures exists a :: a in s.mapped && s.mapped[a].handle == h
  {
    assert HandleOwned(s, h);
    var d :| OwnsHandle(s, d, h);
    assert Backed(s, d);
    var i :| 0 <= i < |s.table[d].handles| && s.table[d].handles[i] == h;
    ChunkIsMapped(s, d, i);
  }

  lemma OwnPiece(s: State, a: nat) returns (d: nat, i: nat)
    requires Inv(s) && a in s.mapped
    ensures d in s.awake && d in s.table && i < |s.table[d].chunks| == |s.table[d].handles|
    ensures Distinct(s.table[d].handles) && a == d + Sum(s.table[d].chunks[..i])
    ensures s.mapped[a] == Mapping(s.table[d].chunks[i], s.table[d].handles[i])
    ensures SizedAt(s.live, s.table[d].handles, s.table[d].chunks, i)
  {
    assert AddressOwned(s, a);
    d :| OwnsAddress(s, d, a);
    assert Backed(s, d);
    i := AddressIndex(d, s.table[d].chunks, s.table[d].handles, a);
  }

  /** With nothing allocated the driver holds nothing. */
  lemma NothingAllocatedNothingHeld(s: State)
    requires Inv(s) && s.table == map[]
    ensures s == Initial
  {
    assert s.awake == {} && s.reserved.Keys == {};
    forall h ensures h !in s.live { assert HandleOwned(s, h); }
    forall a ensures a !in s.mapped { assert AddressOwned(s, a); }
    assert s.mapped.Keys == {};
  }

  // ----- Steps

  /** A range that the driver can reserve. */
  predicate Reservable(reserved: map<nat, nat>, d: nat, size: nat) {
    size > 0 && d + size <= U64 && d !in reserved && forall e :: e in reserved ==> !Overlap(e, reserved[e], d, size)
  }

  /** Reserving a range and recording the allocation. */
  function Registered(s: State, d: nat, a: Allocation): State {
    s.(reserved := s.reserved[d := a.size], table := s.table[d := a])
  }

  /** Creating and mapping the chunks of a recorded allocation. */
  function Awoken(s: State, d: nat, handles: seq<nat>): State
    requires d in s.table && |handles| == |s.table[d].chunks|
  {
    s.(live := s.live + Sizes(handles, s.table[d].chunks), mapped := s.mapped + Layout(d, s.table[d].chunks, handles),
       table := s.table[d := s.table[d].(handles := handles)], awake := s.awake + {d})
  }

  /** Unmapping and releasing them; the record keeps its handle cells. */
  function Asleep(s: State, d: nat): State
    requires d in s.table
  {
    s.(live := s.live - SetOf(s.table[d].handles), mapped := s.mapped - Addresses(d, s.table[d].chunks),
       awake := s.awake - {d})
  }

  function Unregistered(s: State, d: nat): State {
    s.(reserved := s.reserved - {d}, table := s.table - {d})
  }

  lemma RegisteredTables(s: State, d: nat, a: Allocation)
    requires Tables(s) && WellSized(a) && Reservable(s.reserved, d, a.size)
    ensures Tables(Registered(s, d, a))
  {
    var t := Registered(s, d, a);
    forall e | e in t.table ensures Recorded(t, e) {
      assert e != d ==> Recorded(s, e);
    }
    forall e, f ensures Apart(t, e, f) {
      assert Apart(s, e, f);
    }
  }

  lemma UnregisteredTables(s: State, d: nat)
    requires Tables(s)
    ensures Tables(Unregistered(s, d))
  {
    var t := Unregistered(s, d);
    forall e | e in t.table ensures Recorded(t, e) {
      assert Recorded(s, e);
    }
    forall e, f ensures Apart(t, e, f) {
      assert Apart(s, e, f);
    }
  }

  /** Ownership does not change when only records and reservations of sleeping allocations do. */
  lemma SameOwners(s: State, t: State)
    requires Owners(s) && t.live == s.live && t.mapped == s.mapped && t.awake == s.awake
    requires forall e :: e in s.awake ==> e in t.table && t.table[e] == s.table[e]
    requires forall e :: e in s.awake ==> Recorded(t, e)
    ensures Owners(t)
  {
    forall e, h ensures OwnsHandle(t, e, h) <==> OwnsHandle(s, e, h) { }
    forall e, b ensures OwnsAddress(t, e, b) <==> OwnsAddress(s, e, b) { }
    forall e | e in t.awake ensures Backed(t, e) {
      assert Backed(s, e);
    }
    forall h ensures HandleOwned(t, h) {
      assert HandleOwned(s, h);
    }
    forall a ensures AddressOwned(t, a) {
      assert AddressOwned(s, a);
    }
  }

  lemma RegisteredInv(s: State, d: nat, a: Allocation)
    requires Inv(s) && WellSized(a) && Reservable(s.reserved, d, a.size)
    ensures Inv(Registered(s, d, a))
  {
    RegisteredTables(s, d, a);
    SameOwners(s, Registered(s, d, a));
  }

  lemma UnregisteredInv(s: State, d: nat)
    requires Inv(s) && d in s.table && d !in s.awake
    ensures Inv(Unregistered(s, d))
  {
    UnregisteredTables(s, d);
    SameOwners(s, Unregistered(s, d));
  }

  /** Addresses of different recorded allocations are different. */
  lemma OtherAddresses(s: State, d: nat, e: nat, a: nat)
    requires Recorded(s, d) && Recorded(s, e) && Apart(s, d, e)
    requires a in Addresses(d, s.table[d].chunks) && a in Addresses(e, s.table[e].chunks)
    ensures d == e
  {
    var i := AddressIndex(d, s.table[d].chunks, s.table[d].handles, a);
    var j := AddressIndex(e, s.table[e].chunks, s.table[e].handles, a);
  }

  /** Changing handles in the records leaves records and reservations in agreement. */
  lemma SameTables(s: State, t: State)
    requires Tables(s) && t.reserved == s.reserved && t.table.Keys == s.table.Keys
    requires forall e :: e in s.table ==> WellSized(t.table[e]) && t.table[e].size == s.table[e].size
    ensures Tables(t)
  {
    forall e | e in t.table ensures Recorded(t, e) {
      assert Recorded(s, e);
    }
    forall e, f ensures Apart(t, e, f) {
      assert Apart(s, e, f);
    }
  }

  lemma AsleepTables(s: State, d: nat)
    requires Inv(s) && d in s.awake
    ensures Tables(Asleep(s, d))
  {
    assert forall e :: e in s.table ==> Recorded(s, e);
    SameTables(s, Asleep(s, d));
  }

  lemma AsleepBacked(s: State, d: nat, e: nat)
    requires Inv(s) && d in s.awake && e in Asleep(s, d).awake
    ensures Backed(Asleep(s, d), e)
  {
    var t := Asleep(s, d);
    assert Backed(s, e) && Backed(s, d) && Apart(s, d, e);
    forall i | 0 <= i < |t.table[e].handles| ensures SizedAt(t.live, t.table[e].handles, t.table[e].chunks, i) {
      var h := s.table[e].handles[i];
      assert SizedAt(s.live, s.table[e].handles, s.table[e].chunks, i) && HandleOwned(s, h) && OwnsHandle(s, e, h);
      assert h in s.table[d].handles ==> OwnsHandle(s, d, h);
    }
    forall a | a in Addresses(e, t.table[e].chunks) ensures a in t.mapped && t.mapped[a] == s.mapped[a] {
      if a in Addresses(d, s.table[d].chunks) { OtherAddresses(s, d, e, a); }
    }
  }

  lemma AsleepHandles(s: State, d: nat, h: nat)
    requires Inv(s) && d in s.awake
    ensures HandleOwned(Asleep(s, d), h)
  {
    var t := Asleep(s, d);
    assert HandleOwned(s, h);
    forall e ensures OwnsHandle(t, e, h) <==> OwnsHandle(s, e, h) && e != d { }
    assert OwnsHandle(s, d, h) <==> h in SetOf(s.table[d].handles);
    if h in t.live {
      var e :| OwnsHandle(s, e, h);
      assert OwnsHandle(t, e, h);
    }
  }

  lemma AsleepAddresses(s: State, d: nat, a: nat)
    requires Inv(s) && d in s.awake
    ensures AddressOwned(Asleep(s, d), a)
  {
    var t := Asleep(s, d);
    assert AddressOwned(s, a);
    forall e ensures OwnsAddress(t, e, a) <==> OwnsAddress(s, e, a) && e != d { }
    if a in t.mapped {
      var e :| OwnsAddress(s, e, a);
      assert OwnsAddress(t, e, a);
    }
    if e :| OwnsAddress(t, e, a) {
      assert Apart(s, d, e) && Recorded(s, d) && Recorded(s, e);
      if a in Addresses(d, s.table[d].chunks) { OtherAddresses(s, d, e, a); }
    }
  }

  lemma AsleepInv(s: State, d: nat)
    requires Inv(s) && d in s.awake
    ensures Inv(Asleep(s, d))
  {
    var t := Asleep(s, d);
    AsleepTables(s, d);
    forall e | e in t.awake ensures Backed(t, e) { AsleepBacked(s, d, e); }
    forall h ensures HandleOwned(t, h) { AsleepHandles(s, d, h); }
    forall a ensures AddressOwned(t, a) { AsleepAddresses(s, d, a); }
  }

  /** What it takes to wake an allocation up. */
  ghost predicate CanAwake(s: State, d: nat, handles: seq<nat>) {
    && Inv(s) && d in s.table && d !in s.awake && |handles| == |s.table[d].chunks|
    && Distinct(handles) && SetOf(handles) !! s.live.Keys
  }

  lemma AwokenTables(s: State, d: nat, handles: seq<nat>)
    requires CanAwake(s, d, handles)
    ensures Tables(Awoken(s, d, handles))
  {
    assert forall e :: e in s.table ==> Recorded(s, e);
    SameTables(s, Awoken(s, d, handles));
  }

  lemma AwokenBacked(s: State, d: nat, handles: seq<nat>, e: nat)
    requires CanAwake(s, d, handles) && e in Awoken(s, d, handles).awake
    ensures Backed(Awoken(s, d, handles), e)
  {
    var t := Awoken(s, d, handles);
    assert Recorded(s, d) && Recorded(s, e) && Apart(s, d, e);
    forall i | 0 <= i < |t.table[e].handles| ensures SizedAt(t.live, t.table[e].handles, t.table[e].chunks, i) {
      if e == d {
        SizesAt(handles, s.table[d].chunks, i);
      } else {
        assert Backed(s, e) && SizedAt(s.live, s.table[e].handles, s.table[e].chunks, i);
      }
    }
    if e != d {
      assert Backed(s, e);
      forall a | a in Addresses(e, t.table[e].chunks) ensures a in t.mapped && t.mapped[a] == s.mapped[a] {
        if a in Addresses(d, s.table[d].chunks) { OtherAddresses(s, d, e, a); }
      }
    }
  }

  lemma AwokenHandles(s: State, d: nat, handles: seq<nat>, h: nat)
    requires CanAwake(s, d, handles)
    ensures HandleOwned(Awoken(s, d, handles), h)
  {
    var t := Awoken(s, d, handles);
    assert HandleOwned(s, h);
    forall e ensures OwnsHandle(t, e, h) <==> OwnsHandle(s, e, h) || (e == d && h in handles) { }
    if h in s.live {
      var e :| OwnsHandle(s, e, h);
      assert OwnsHandle(t, e, h);
    } else if h in handles {
      assert OwnsHandle(t, d, h);
    }
  }

  lemma AwokenAddresses(s: State, d: nat, handles: seq<nat>, a: nat)
    requires CanAwake(s, d, handles)
    ensures AddressOwned(Awoken(s, d, handles), a)
  {
    var t := Awoken(s, d, handles);
    assert AddressOwned(s, a);
    forall e ensures OwnsAddress(t, e, a) <==>
                     OwnsAddress(s, e, a) || (e == d && a in Addresses(d, s.table[d].chunks)) { }
    if a in s.mapped {
      var e :| OwnsAddress(s, e, a);
      assert OwnsAddress(t, e, a);
    } else if a in Addresses(d, s.table[d].chunks) {
      assert OwnsAddress(t, d, a);
    }
  }

  lemma AwokenInv(s: State, d: nat, handles: seq<nat>)
    requires CanAwake(s, d, handles)
    ensures Inv(Awoken(s, d, handles))
  {
    var t := Awoken(s, d, handles);
    AwokenTables(s, d, handles);
    forall e | e in t.awake ensures Backed(t, e) { AwokenBacked(s, d, handles, e); }
    forall h ensures HandleOwned(t, h) { AwokenHandles(s, d, handles, h); }
    forall a ensures AddressOwned(t, a) { AwokenAddresses(s, d, handles, a); }
  }

  // ----- Runs

  datatype Op = Malloc(d: nat, a: Allocation) | Sleep(d: nat) | Wake(d: nat, handles: seq<nat>) | Free(d: nat)

  /** Handles that the driver can give out together. */
  ghost predicate Fresh(s: State, handles: seq<nat>) {
    Distinct(handles) && SetOf(handles) !! s.live.Keys
  }

  ghost predicate Can(s: State, op: Op) {
    match op
    case Malloc(d, a) => WellSized(a) && Reservable(s.reserved, d, a.size) && Fresh(s, a.handles)
    case Sleep(d) => d in s.awake && d in s.table
    case Wake(d, handles) => d in s.table && d !in s.awake && |handles| == |s.table[d].chunks| && Fresh(s, handles)
    case Free(d) => d in s.awake && d in s.table
  }

  /** The state after a successful operation. */
  ghost function Do(s: State, op: Op): State
    requires Can(s, op)
  {
    match op
    case Malloc(d, a) => Awoken(Registered(s, d, a), d, a.handles)
    case Sleep(d) => Asleep(s, d)
    case Wake(d, handles) => Awoken(s, d, handles)
    case Free(d) => Unregistered(Asleep(s, d), d)
  }

  ghost predicate Legal(s: State, ops: seq<Op>)
    decreases |ops|
  {
    ops == [] || (Can(s, ops[0]) && Legal(Do(s, ops[0]), ops[1..]))
  }

  ghost function Run(s: State, ops: seq<Op>): State
    requires Legal(s, ops)
    decreases |ops|
  {
    if ops == [] then s else Run(Do(s, ops[0]), ops[1..])
  }

  lemma StepInv(s: State, op: Op)
    requires Inv(s) && Can(s, op)
    ensures Inv(Do(s, op))
  {
    match op
    case Malloc(d, a) =>
      RegisteredInv(s, d, a);
      assert d !in s.awake by { assert d !in s.table; }
      AwokenInv(Registered(s, d, a), d, a.handles);
    case Sleep(d) => AsleepInv(s, d);
    case Wake(d, handles) => AwokenInv(s, d, handles);
    case Free(d) =>
      AsleepInv(s, d);
      UnregisteredInv(Asleep(s, d), d);
  }

  lemma {:induction false} RunInv(s: State, ops: seq<Op>)
    requires Inv(s) && Legal(s, ops)
    ensures Inv(Run(s, ops))
    decreases |ops|
  {
    if ops != [] {
      StepInv(s, ops[0]);
      RunInv(Do(s, ops[0]), ops[1..]);
    }
  }

  lemma InitialInv()
    ensures Inv(Initial)
  {
  }

  /**
    Over every run of successful operations: as many handles are live as the awake allocations have
    chunks, as many bytes as they have together, every mapped piece has a handle of its own and of its
    length, every live handle is mapped, every mapped range lies inside the reservation of an awake
    allocation, no two mapped ranges overlap, and freeing everything leaves the driver empty.
   */
  lemma EveryRunIsSafe(ops: seq<Op>)
    requires Legal(Initial, ops)
    ensures var s := Run(Initial, ops);
            && s.awake <= s.table.Keys && |s.live| == ChunkCount(s.table, s.awake)
            && SizeOf(s.live, s.live.Keys) == SizeOfAll(s.table, s.awake)
            && (forall h :: h in s.live ==> exists a :: a in s.mapped && s.mapped[a].handle == h)
            && (forall a :: a in s.mapped ==> InOwnReservation(s, a))
            && (forall a :: a in s.mapped ==>
                  s.mapped[a].handle in s.live && s.live[s.mapped[a].handle] == s.mapped[a].size)
            && (forall a, b :: a in s.mapped && b in s.mapped && a != b ==>
                  && s.mapped[a].handle != s.mapped[b].handle
                  && (a + s.mapped[a].size <= b || b + s.mapped[b].size <= a))
            && (s.table == map[] ==> s == Initial)
  {
    InitialInv();
    RunInv(Initial, ops);
    var s := Run(Initial, ops);
    LiveHandlesAreCounted(s);
    PhysicalMemoryAddsUp(s);
    forall a, b | a in s.mapped && b in s.mapped && a != b
      ensures s.mapped[a].handle != s.mapped[b].handle
      ensures a + s.mapped[a].size <= b || b + s.mapped[b].size <= a
    {
      MappedRangesAreApart(s, a, b);
      PiecesFitHandles(s, a, b);
    }
    forall a | a in s.mapped
      ensures s.mapped[a].handle in s.live && s.live[s.mapped[a].handle] == s.mapped[a].size
    {
      PiecesFitHandles(s, a, a);
    }
    forall a | a in s.mapped ensures InOwnReservation(s, a) {
      MappedRangesAreApart(s, a, a);
    }
    forall h | h in s.live ensures exists a :: a in s.mapped && s.mapped[a].handle == h {
      LiveHandleIsMapped(s, h);
    }
    if s.table == map[] { NothingAllocatedNothingHeld(s); }
  }

  /** Where something is mapped, and how long each piece is. */
  function Shape(mapped: map<nat, Mapping>): map<nat, nat> {
    map a | a in mapped :: mapped[a].size
  }

  lemma RemapShape(m: map<nat, Mapping>, l1: map<nat, Mapping>, l2: map<nat, Mapping>)
    requires l1.Keys == l2.Keys
    requires forall a :: a in l1 ==> a in m && m[a] == l1[a]
    requires forall a :: a in l1 ==> l1[a].size == l2[a].size
    ensures Shape((m - l1.Keys) + l2) == Shape(m)
  {
    assert ((m - l1.Keys) + l2).Keys == m.Keys;
  }

  lemma BackedLayoutIsRestored(s: State, d: nat, handles: seq<nat>)
    requires Backed(s, d) && d in s.awake && |handles| == |s.table[d].chunks|
    ensures var t := Awoken(Asleep(s, d), d, handles);
            && Shape(t.mapped) == Shape(s.mapped) && t.reserved == s.reserved
            && t.awake == s.awake && t.table.Keys == s.table.Keys
  {
    var chunks := s.table[d].chunks;
    var l1, l2 := Layout(d, chunks, s.table[d].handles), Layout(d, chunks, handles);
    forall a | a in l1 ensures l1[a].size == l2[a].size {
      SizesOfLayout(d, chunks, s.table[d].handles, handles, a);
    }
    RemapShape(s.mapped, l1, l2);
  }

  /** Sleeping and waking up with any new handles restores the address layout. */
  lemma SleepWakeRestoresLayout(s: State, d: nat, handles: seq<nat>)
    requires Inv(s) && Can(s, Sleep(d)) && Can(Asleep(s, d), Wake(d, handles))
    ensures var t := Do(Do(s, Sleep(d)), Wake(d, handles));
            && Shape(t.mapped) == Shape(s.mapped) && t.reserved == s.reserved
            && t.awake == s.awake && t.table.Keys == s.table.Keys
  {
    BackedLayoutIsRestored(s, d, handles);
  }

  /** The layout's sizes do not depend on the handles. */
  lemma {:induction false} SizesOfLayout(base: nat, chunks: seq<nat>, h1: seq<nat>, h2: seq<nat>, a: nat)
    requires |chunks| == |h1| == |h2| && a in Addresses(base, chunks)
    ensures Layout(base, chunks, h1)[a].size == Layout(base, chunks, h2)[a].size
  {
    var n := |chunks| - 1;
    if a != base + Sum(chunks[..n]) {
      SizesOfLayout(base, chunks[..n], h1[..n], h2[..n], a);
    }
  }

  /** While an allocation wakes up, every call to map its next chunk is one the driver can grant. */
  lemma WakingMapsFreeRanges(s: State, d: nat, handles: seq<nat>, i: nat)
    requires Inv(s) && Can(s, Wake(d, handles)) && i < |handles|
    ensures var chunks := s.table[d].chunks;
            Mappable(s.mapped + Layout(d, chunks[..i], handles[..i]), s.reserved, d + Sum(chunks[..i]), chunks[i])
  {
    var chunks := s.table[d].chunks;
    var addr := d + Sum(chunks[..i]);
    var part := Layout(d, chunks[..i], handles[..i]);
    assert Recorded(s, d);
    SumOfPrefix(chunks, i);
    forall a | a in s.mapped + part ensures a != addr && !Overlap(a, (s.mapped + part)[a].size, addr, chunks[i]) {
      if a in part {
        PieceBefore(d, chunks, handles, i, a);
      } else {
        OthersApart(s, d, a, addr, chunks[i]);
      }
    }
  }

  /** The pieces mapped before piece i end where it starts or earlier. */
  lemma PieceBefore(d: nat, chunks: seq<nat>, handles: seq<nat>, i: nat, a: nat)
    requires |chunks| == |handles| && Positive(chunks) && i < |chunks| && a in Addresses(d, chunks[..i])
    ensures var part := Layout(d, chunks[..i], handles[..i]);
            part[a].size > 0 && a + part[a].size <= d + Sum(chunks[..i])
  {
    var j := AddressIndex(d, chunks[..i], handles[..i], a);
  }

  /** What is mapped belongs to other reservations than that of a sleeping allocation. */
  lemma OthersApart(s: State, d: nat, a: nat, addr: nat, size: nat)
    requires Inv(s) && d in s.table && d !in s.awake && a in s.mapped
    requires d in s.reserved && d <= addr && size > 0 && addr + size <= d + s.reserved[d]
    ensures a != addr && !Overlap(a, s.mapped[a].size, addr, size)
  {
    assert AddressOwned(s, a);
    var e :| OwnsAddress(s, e, a);
    AddressInside(s, e, a);
    assert Apart(s, d, e);
  }

  // ----- Recognising operations by their effect

  /** An operation was possible, gave this state, and kept the invariant. */
  ghost predicate Performed(s: State, op: Op, t: State) {
    Can(s, op) && t == Do(s, op) && Inv(t)
  }

  lemma MappingIsWake(s: State, t: State, d: nat, handles: seq<nat>)
    requires Inv(s) && d in s.table && |handles| == |s.table[d].chunks|
    requires Created(s.live, t.live, handles, s.table[d].chunks)
    requires Placed(s.mapped, t.mapped, d, s.table[d].chunks, handles)
    requires t == Awoken(s, d, handles)
    ensures Performed(s, Op.Wake(d, handles), t) && d !in s.awake
  {
    UnmappedMeansAsleep(s, d);
    assert SetOf(handles) !! s.live.Keys;
    StepInv(s, Op.Wake(d, handles));
  }

  lemma FirstAddress(base: nat, chunks: seq<nat>)
    requires chunks != []
    ensures base in Addresses(base, chunks)
  {
    if |chunks| > 1 {
      FirstAddress(base, chunks[..|chunks| - 1]);
    } else {
      assert chunks[..0] == [];
    }
  }

  lemma UnmappedMeansAsleep(s: State, d: nat)
    requires Inv(s) && d in s.table && Addresses(d, s.table[d].chunks) !! s.mapped.Keys
    ensures d !in s.awake
  {
    assert Recorded(s, d);
    FirstAddress(d, s.table[d].chunks);
    assert d in s.awake ==> Backed(s, d);
  }
}
