/** The allocator entry points of `library/trust-mc/kani_lib.c` over the stride addressing of
    `proofs/heap_stride_isolation.rs`. The repository keeps the two apart; placing the C
    library's objects at stride addresses is this model's composition. */
module Heap {
  import opened Wrappers
  import opened PowerOfTwo

  const HEAP_STRIDE: nat := 0x100000
  const U64_MAX: nat := 0xFFFF_FFFF_FFFF_FFFF
  const MAX_ALLOC_ID: nat := U64_MAX / HEAP_STRIDE - 1

  type Byte = bv8

  function Base(id: nat): nat { id * HEAP_STRIDE }
  function ObjectId(ptr: nat): nat { ptr / HEAP_STRIDE }
  function Offset(ptr: nat): nat { ptr % HEAP_STRIDE }

  /** Live objects with their bytes, the size of every object ever made, and the next id. */
  datatype State = State(live: map<nat, seq<Byte>>, sizes: map<nat, nat>, next: nat)

  const EMPTY := State(map[], map[], 1)

  /** Which check stopped the program. */
  datatype Check = ZeroSize | NullPointer | BadAlignment | SizeMismatch | InvalidFree | BadRead

  /** What the C library leaves open about one allocation: whether it fails, and, when it does
      not, the bytes the new object starts with. */
  type Luck = Option<nat -> Byte>

  function Fill(luck: nat -> Byte, n: nat): (r: seq<Byte>)
    ensures |r| == n && forall i :: 0 <= i < n ==> r[i] == luck(i)
  {
    seq(n, i requires 0 <= i => luck(i))
  }

  // ---------------------------------------------------------------------
  // The C library underneath
  // ---------------------------------------------------------------------

  /** `malloc`: null, or the base of a fresh object. Beyond the stride scheme's limits it fails. */
  function Malloc(s: State, size: nat, luck: Luck): (State, nat) {
    if luck.None? || s.next >= MAX_ALLOC_ID || size >= HEAP_STRIDE then (s, 0)
    else (State(s.live[s.next := Fill(luck.value, size)], s.sizes[s.next := size], s.next + 1), Base(s.next))
  }

  /** `free`: null is ignored, anything but the base of a live object is an error. */
  function Free(s: State, ptr: nat): Option<State> {
    if ptr == 0 then Some(s)
    else if Offset(ptr) == 0 && ObjectId(ptr) in s.live then Some(s.(live := s.live - {ObjectId(ptr)}))
    else None
  }

  /** `__CPROVER_OBJECT_SIZE`: the size an object was made with, live or not. */
  function ObjectSize(s: State, ptr: nat): nat {
    if ObjectId(ptr) in s.sizes then s.sizes[ObjectId(ptr)] else 0
  }

  /** May `n` bytes be read at `ptr`? */
  predicate Readable(s: State, ptr: nat, n: nat) {
    ObjectId(ptr) in s.live && Offset(ptr) + n <= |s.live[ObjectId(ptr)]|
  }

  // ---------------------------------------------------------------------
  // The four entry points, as state transformers
  // ---------------------------------------------------------------------

  datatype Op =
    | Alloc(size: nat, align: nat, luck: Luck)
    | AllocZeroed(size: nat, align: nat, works: bool)
    | Dealloc(ptr: nat, size: nat, align: nat)
    | Realloc(ptr: nat, oldSize: nat, align: nat, newSize: nat, luck: Luck)

  /** The state after one call and the pointer it returns, or the check that stopped it. */
  function Exec(op: Op, s: State): Result<(State, nat), Check> {
    match op
    case Alloc(size, align, luck) =>
      if size == 0 then Err(ZeroSize)
      else if !IsNonzeroPowerOfTwo(align) then Err(BadAlignment)
      else Ok(Malloc(s, size, luck))
    case AllocZeroed(size, align, works) =>
      if size == 0 then Err(ZeroSize)
      else if !IsNonzeroPowerOfTwo(align) then Err(BadAlignment)
      else Ok(Malloc(s, size, if works then Some(_ => 0) else None))
    case Dealloc(ptr, size, align) =>
      if !IsNonzeroPowerOfTwo(align) then Err(BadAlignment)
      else if ObjectSize(s, ptr) != size then Err(SizeMismatch)
      else (match Free(s, ptr) case None => Err(InvalidFree) case Some(s') => Ok((s', 0)))
    case Realloc(ptr, oldSize, align, newSize, luck) =>
      if ptr == 0 then Err(NullPointer)
      else if newSize == 0 then Err(ZeroSize)
      else if !IsNonzeroPowerOfTwo(align) then Err(BadAlignment)
      else
        var (s1, result) := Malloc(s, newSize, luck);
        if result == 0 then Ok((s1, 0))
        else
          var n := if newSize < oldSize then newSize else oldSize;
          if !Readable(s1, ptr, n) then Err(BadRead)
          else
            var id, bytes := ObjectId(result), s1.live[ObjectId(ptr)][Offset(ptr)..Offset(ptr) + n];
            var s2 := s1.(live := s1.live[id := bytes + s1.live[id][n..]]);
            (match Free(s2, ptr) case None => Err(InvalidFree) case Some(s3) => Ok((s3, result)))
  }

  // ---------------------------------------------------------------------
  // The calls themselves, changing the heap step by step
  // ---------------------------------------------------------------------

  class Allocator {
    var live: map<nat, seq<Byte>>
    var sizes: map<nat, nat>
    var next: nat

    function Now(): State
      reads this
    {
      State(live, sizes, next)
    }

    constructor ()
      ensures Now() == EMPTY
    {
      live, sizes, next := map[], map[], 1;
    }

    method CMalloc(size: nat, luck: Luck) returns (ptr: nat)
      modifies this
      ensures (Now(), ptr) == Malloc(old(Now()), size, luck)
    {
      if luck.None? || next >= MAX_ALLOC_ID || size >= HEAP_STRIDE { return 0; }
      live := live[next := Fill(luck.value, size)];
      sizes := sizes[next := size];
      ptr := Base(next);
      next := next + 1;
    }

    method CFree(ptr: nat) returns (ok: bool)
      modifies this
      ensures ok == Free(old(Now()), ptr).Some?
      ensures Now() == if ok then Free(old(Now()), ptr).value else old(Now())
    {
      if ptr == 0 { return true; }
      if Offset(ptr) != 0 || ObjectId(ptr) !in live { return false; }
      live := live - {ObjectId(ptr)};
      return true;
    }

    method CMemcpy(dst: nat, src: nat, n: nat) returns (ok: bool)
      requires ObjectId(dst) in live && n <= |live[ObjectId(dst)]|
      modifies this`live
      ensures ok == Readable(old(Now()), src, n)
      ensures live == if !ok then old(live) else
        old(live)[ObjectId(dst) :=
          old(live)[ObjectId(src)][Offset(src)..Offset(src) + n] + old(live)[ObjectId(dst)][n..]]
    {
      if !Readable(Now(), src, n) { return false; }
      live := live[ObjectId(dst) := live[ObjectId(src)][Offset(src)..Offset(src) + n] + live[ObjectId(dst)][n..]];
      return true;
    }

    /** `__rust_alloc`. */
    method RustAlloc(size: nat, align: nat, luck: Luck) returns (r: Result<nat, Check>)
      modifies this
      ensures Outcome(old(Now()), Alloc(size, align, luck), r, Now())
    {
      if !(size > 0) { return Err(ZeroSize); }
      if !IsNonzeroPowerOfTwo(align) { return Err(BadAlignment); }
      var ptr := CMalloc(size, luck);
      return Ok(ptr);
    }

    /** `__rust_alloc_zeroed`. */
    method RustAllocZeroed(size: nat, align: nat, works: bool) returns (r: Result<nat, Check>)
      modifies this
      ensures Outcome(old(Now()), AllocZeroed(size, align, works), r, Now())
    {
      if !(size > 0) { return Err(ZeroSize); }
      if !IsNonzeroPowerOfTwo(align) { return Err(BadAlignment); }
      var ptr := CCalloc(size, works);
      return Ok(ptr);
    }

    method CCalloc(size: nat, works: bool) returns (ptr: nat)
      modifies this
      ensures (Now(), ptr) == Malloc(old(Now()), size, if works then Some(_ => 0) else None)
    {
      if !works || next >= MAX_ALLOC_ID || size >= HEAP_STRIDE { return 0; }
      live := live[next := seq(size, _ => 0)];
      assert live[next] == Fill(_ => 0, size);
      sizes := sizes[next := size];
      ptr := Base(next);
      next := next + 1;
    }

    /** `__rust_dealloc`. */
    method RustDealloc(ptr: nat, size: nat, align: nat) returns (r: Result<nat, Check>)
      modifies this
      ensures Outcome(old(Now()), Dealloc(ptr, size, align), r, Now())
    {
      if !IsNonzeroPowerOfTwo(align) { return Err(BadAlignment); }
      if ObjectSize(Now(), ptr) != size { return Err(SizeMismatch); }
      var ok := CFree(ptr);
      return if ok then Ok(0) else Err(InvalidFree);
    }

    /** `__rust_realloc`. */
    method RustRealloc(ptr: nat, oldSize: nat, align: nat, newSize: nat, luck: Luck) returns (r: Result<nat, Check>)
      modifies this
      ensures Outcome(old(Now()), Realloc(ptr, oldSize, align, newSize, luck), r, Now())
    {
      if ptr == 0 { return Err(NullPointer); }
      if !(newSize > 0) { return Err(ZeroSize); }
      if !IsNonzeroPowerOfTwo(align) { return Err(BadAlignment); }
      ghost var id := next;
      var result := CMalloc(newSize, luck);
      if result != 0 {
        DecodeBase(id);
        var bytesToCopy := if newSize < oldSize then newSize else oldSize;
        var ok := CMemcpy(result, ptr, bytesToCopy);
        if !ok { return Err(BadRead); }
        ok := CFree(ptr);
        if !ok { return Err(InvalidFree); }
      }
      return Ok(result);
    }
  }

  ghost predicate Added(before: State, size: nat, after: State) {
    && before.next in after.live && |after.live[before.next]| == size
    && after.live == before.live[before.next := after.live[before.next]]
    && after.sizes == before.sizes[before.next := size] && after.next == before.next + 1
  }

  /** A call either ends as `Exec` says, or a check fails as `Exec` says and the path ends there. The
      heap is then as it was, unless a reallocation's copy or release failed: by then it has added
      the new object, and nothing else. */
  ghost predicate Outcome(before: State, op: Op, r: Result<nat, Check>, after: State) {
    match Exec(op, before)
    case Ok((s, ptr)) => r == Ok(ptr) && after == s
    case Err(c) =>
      r == Err(c) &&
      if op.Realloc? && (c.BadRead? || c.InvalidFree?) then Added(before, op.newSize, after) else after == before
  }

  // ---------------------------------------------------------------------
  // Stride addressing
  // ---------------------------------------------------------------------

  lemma {:induction false} DecodeBase(id: nat)
    ensures ObjectId(Base(id)) == id && Offset(Base(id)) == 0
  {
  }

  /** An address is an id and an offset in exactly one way. */
  lemma {:induction false} DecodeAddress(id: nat, offset: nat)
    requires offset < HEAP_STRIDE
    ensures ObjectId(Base(id) + offset) == id && Offset(Base(id) + offset) == offset
  {
  }

  /** What every reachable heap satisfies. */
  ghost predicate Inv(s: State) {
    && 1 <= s.next <= MAX_ALLOC_ID
    && (forall id :: id in s.sizes ==> 1 <= id < s.next && 0 < s.sizes[id] < HEAP_STRIDE)
    && (forall id :: id in s.live ==> id in s.sizes && |s.live[id]| == s.sizes[id])
  }

  /** Address `a` belongs to the live object `id`. */
  ghost predicate Covers(s: State, id: nat, a: nat) {
    id in s.live && Base(id) <= a < Base(id) + |s.live[id]|
  }

  /** Two live objects never overlap, none is at null, and all end inside 64 bits. */
  lemma {:induction false} LiveRangesDisjoint(s: State, i: nat, j: nat)
    requires Inv(s) && i in s.live && j in s.live && i != j
    ensures Base(i) + |s.live[i]| <= Base(j) || Base(j) + |s.live[j]| <= Base(i)
    ensures 0 < Base(i) && Base(i) + |s.live[i]| <= U64_MAX
  {
    if i < j {
      assert Base(j) >= Base(i) + HEAP_STRIDE;
    } else {
      assert Base(i) >= Base(j) + HEAP_STRIDE;
    }
  }

  /** Division and remainder find the one live object an address can belong to. */
  lemma {:induction false} AddressDecodes(s: State, a: nat)
    requires Inv(s)
    ensures forall id :: Covers(s, id, a) ==> id == ObjectId(a) && a == Base(id) + Offset(a)
    ensures Covers(s, ObjectId(a), a) <==> ObjectId(a) in s.live && Offset(a) < |s.live[ObjectId(a)]|
  {
    forall id | Covers(s, id, a) ensures id == ObjectId(a) && a == Base(id) + Offset(a) {
      DecodeAddress(id, a - Base(id));
    }
  }

  // ---------------------------------------------------------------------
  // Runs
  // ---------------------------------------------------------------------

  /** What one call gives its caller. */
  lemma {:induction false} MallocFacts(s: State, size: nat, luck: Luck)
    requires Inv(s) && size > 0
    ensures var (s', p) := Malloc(s, size, luck);
            Inv(s') &&
            if p == 0 then s' == s
            else p == Base(s.next) && ObjectId(p) == s.next && s'.next == s.next + 1 &&
                 s'.sizes == s.sizes[s.next := size] && s'.live.Keys == s.live.Keys + {s.next} &&
                 |s'.live[s.next]| == size && forall id :: id in s.live ==> s'.live[id] == s.live[id]
  {
    DecodeBase(s.next);
  }

  lemma {:induction false} StepKeepsInv(op: Op, s: State)
    requires Inv(s) && Exec(op, s).Ok?
    ensures var (s', p) := Exec(op, s).value;
            Inv(s') && s.next <= s'.next &&
            (forall id :: id in s.sizes ==> id in s'.sizes && s'.sizes[id] == s.sizes[id]) &&
            (p != 0 ==> p == Base(s.next) && s'.next == s.next + 1)
  {
    match op {
      case Alloc(size, align, luck) => MallocFacts(s, size, luck);
      case AllocZeroed(size, align, works) => MallocFacts(s, size, if works then Some(_ => 0) else None);
      case Dealloc(_, _, _) =>
      case Realloc(_, _, _, newSize, luck) => MallocFacts(s, newSize, luck);
    }
  }

  /** Executes the calls in order, collecting the pointers they return. */
  function RunOps(ops: seq<Op>, s: State): Result<(State, seq<nat>), Check> {
    if ops == [] then Ok((s, []))
    else
      match Exec(ops[0], s)
      case Err(c) => Err(c)
      case Ok((s1, p)) =>
        match RunOps(ops[1..], s1)
        case Err(c) => Err(c)
        case Ok((s2, ps)) => Ok((s2, [p] + ps))
  }

  /** Over every run: the invariant holds, and no address is ever handed out twice, not even
      after its object was freed. */
  lemma {:induction false} RunsKeepInv(ops: seq<Op>, s: State)
    requires Inv(s) && RunOps(ops, s).Ok?
    ensures var (s', ps) := RunOps(ops, s).value;
            Inv(s') && s.next <= s'.next && |ps| == |ops| &&
            (forall i :: 0 <= i < |ps| && ps[i] != 0 ==> ps[i] >= Base(s.next)) &&
            (forall i, j :: 0 <= i < j < |ps| && ps[i] != 0 && ps[j] != 0 ==> ps[i] < ps[j])
  {
    if ops != [] {
      StepKeepsInv(ops[0], s);
      var (s1, p) := Exec(ops[0], s).value;
      RunsKeepInv(ops[1..], s1);
      var (s2, ps) := RunOps(ops[1..], s1).value;
      assert RunOps(ops, s).value.1 == [p] + ps;
      assert Base(s1.next) >= Base(s.next) && (p != 0 ==> Base(s1.next) > p);
    }
  }

  /** From the empty heap, at every point of every run, the live objects are pairwise disjoint
      and every address belongs to at most one of them. */
  lemma {:induction false} HeapIsIsolated(ops: seq<Op>, i: nat, j: nat, a: nat)
    requires RunOps(ops, EMPTY).Ok?
    ensures var s := RunOps(ops, EMPTY).value.0;
            (i in s.live && j in s.live && i != j ==>
               Base(i) + |s.live[i]| <= Base(j) || Base(j) + |s.live[j]| <= Base(i)) &&
            (Covers(s, i, a) && Covers(s, j, a) ==> i == j == ObjectId(a)) &&
            (i in s.live ==> 0 < Base(i) && Base(i) + |s.live[i]| <= U64_MAX)
  {
    RunsKeepInv(ops, EMPTY);
    var s := RunOps(ops, EMPTY).value.0;
    if i in s.live && j in s.live && i != j { LiveRangesDisjoint(s, i, j); }
    AddressDecodes(s, a);
  }

  // ---------------------------------------------------------------------
  // Contracts of the single calls
  // ---------------------------------------------------------------------

  /** No call gets past its checks with an alignment that is not a power of two. */
  lemma {:induction false} AcceptedAlignment(op: Op, s: State)
    requires Exec(op, s).Ok?
    ensures exists k :: op.align == Pow2(k)
  {
    TrickIsExact(op.align);
  }

  /** A request for memory can be met: an id and an address range are left for it. */
  predicate HasRoom(s: State, size: nat) { s.next < MAX_ALLOC_ID && size < HEAP_STRIDE }

  /** An allocation with a positive size and a proper alignment is never stopped. It gives the base of
      a new object of exactly that size, holding the bytes the C library left there, whenever the
      request works and there is room, and else null; no other object changes either way. */
  lemma {:induction false} AllocContract(s: State, size: nat, align: nat, luck: Luck)
    requires Inv(s)
    ensures Exec(Alloc(size, align, luck), s).Ok? <==> size > 0 && IsNonzeroPowerOfTwo(align)
    ensures Exec(Alloc(size, align, luck), s).Ok? ==>
              var (s', p) := Exec(Alloc(size, align, luck), s).value;
              && (p != 0 <==> luck.Some? && HasRoom(s, size))
              && (p == 0 ==> s' == s)
              && (p != 0 ==> p == Base(s.next) && IsNewObject(s, s', size, luck.value))
  {
    if size > 0 { MallocFacts(s, size, luck); }
  }

  /** The one change is a new object of that size with these bytes. */
  ghost predicate IsNewObject(s: State, s': State, size: nat, bytes: nat -> Byte) {
    && s'.live.Keys == s.live.Keys + {s.next} && |s'.live[s.next]| == size
    && (forall k :: 0 <= k < size ==> s'.live[s.next][k] == bytes(k))
    && (forall id :: id in s.live && id != s.next ==> s'.live[id] == s.live[id])
    && s'.sizes == s.sizes[s.next := size] && s'.next == s.next + 1
  }

  /** The same of a zeroed allocation, whose new object holds zeros. */
  lemma {:induction false} ZeroedContract(s: State, size: nat, align: nat, works: bool)
    requires Inv(s)
    ensures Exec(AllocZeroed(size, align, works), s).Ok? <==> size > 0 && IsNonzeroPowerOfTwo(align)
    ensures Exec(AllocZeroed(size, align, works), s).Ok? ==>
              var (s', p) := Exec(AllocZeroed(size, align, works), s).value;
              && (p != 0 <==> works && HasRoom(s, size))
              && (p == 0 ==> s' == s)
              && (p != 0 ==> p == Base(s.next) && IsNewObject(s, s', size, _ => 0))
  {
    if size > 0 { MallocFacts(s, size, if works then Some(_ => 0) else None); }
  }

  lemma {:induction false} ZeroedIsZero(s: State, size: nat, align: nat, works: bool)
    requires Inv(s) && Exec(AllocZeroed(size, align, works), s).Ok?
    ensures var (s', p) := Exec(AllocZeroed(size, align, works), s).value;
            p != 0 ==> |s'.live[ObjectId(p)]| == size && forall k :: 0 <= k < size ==> s'.live[ObjectId(p)][k] == 0
  {
    MallocFacts(s, size, if works then Some(_ => 0) else None);
  }

  /** A deallocation that passes removes exactly the live object at `ptr`, whose size was given. */
  lemma {:induction false} DeallocContract(s: State, ptr: nat, size: nat, align: nat)
    requires Inv(s) && ptr != 0
    ensures Exec(Dealloc(ptr, size, align), s).Ok? <==>
            IsNonzeroPowerOfTwo(align) && ObjectId(ptr) in s.live && ptr == Base(ObjectId(ptr)) &&
            |s.live[ObjectId(ptr)]| == size
    ensures Exec(Dealloc(ptr, size, align), s).Ok? ==>
            Exec(Dealloc(ptr, size, align), s).value == (s.(live := s.live - {ObjectId(ptr)}), 0)
  {
  }

  /** A reallocation either fails and changes nothing, or moves the first min(old, new) bytes to a
      fresh object of the new size, and frees the old object and nothing else. The pointer must be
      one an earlier call could have returned. */
  lemma {:induction false} ReallocContract(s: State, ptr: nat, oldSize: nat, align: nat, newSize: nat, luck: Luck)
    requires Inv(s) && ObjectId(ptr) != s.next && Exec(Realloc(ptr, oldSize, align, newSize, luck), s).Ok?
    ensures var (s', p) := Exec(Realloc(ptr, oldSize, align, newSize, luck), s).value;
            var id, n := ObjectId(ptr), if newSize < oldSize then newSize else oldSize;
            if p == 0 then s' == s
            else
              id in s.live && ptr == Base(id) && n <= |s.live[id]| && p == Base(s.next) &&
              s'.next == s.next + 1 && s'.sizes == s.sizes[s.next := newSize] &&
              s'.live.Keys == s.live.Keys - {id} + {s.next} &&
              |s'.live[s.next]| == newSize && s'.live[s.next][..n] == s.live[id][..n] &&
              forall o :: o in s.live && o != id ==> s'.live[o] == s.live[o]
  {
    MallocFacts(s, newSize, luck);
    assert ptr == Base(ObjectId(ptr)) + Offset(ptr);
  }

  /** When a reallocation passes: the checks on its arguments hold, and if the new object is made, the
      bytes to copy exist and the pointer is the base of a live object. */
  lemma {:induction false} ReallocAccepted(
    s: State, ptr: nat, oldSize: nat, align: nat, newSize: nat, luck: Luck)
    requires Inv(s) && ObjectId(ptr) != s.next
    ensures Exec(Realloc(ptr, oldSize, align, newSize, luck), s).Ok? <==>
              && ptr != 0 && newSize > 0 && IsNonzeroPowerOfTwo(align)
              && (luck.Some? && HasRoom(s, newSize) ==>
                    && ObjectId(ptr) in s.live && ptr == Base(ObjectId(ptr))
                    && (if newSize < oldSize then newSize else oldSize) <= |s.live[ObjectId(ptr)]|)
  {
    if newSize > 0 { MallocFacts(s, newSize, luck); }
    DecodeBase(s.next);
    assert ptr == Base(ObjectId(ptr)) + Offset(ptr);
  }

  /** That demand is exact: given the address of the object it is about to make, a reallocation
      that works hands out an object it has just freed. */
  lemma {:induction false} ReallocResultIsLive(s: State, ptr: nat, oldSize: nat, align: nat, newSize: nat, luck: Luck)
    requires Inv(s) && Exec(Realloc(ptr, oldSize, align, newSize, luck), s).Ok?
    requires Exec(Realloc(ptr, oldSize, align, newSize, luck), s).value.1 != 0
    ensures var (s', p) := Exec(Realloc(ptr, oldSize, align, newSize, luck), s).value;
            ObjectId(p) in s'.live <==> ObjectId(ptr) != s.next
  {
    MallocFacts(s, newSize, luck);
    assert ptr == Base(ObjectId(ptr)) + Offset(ptr);
  }

  lemma {:induction false} ReallocNeedsItsCopy(
    s: State, id: nat, oldSize: nat, align: nat, newSize: nat, luck: nat -> Byte)
    requires Inv(s) && id in s.live && s.next < MAX_ALLOC_ID && 0 < newSize < HEAP_STRIDE
    requires IsNonzeroPowerOfTwo(align)
    ensures var n := if newSize < oldSize then newSize else oldSize;
            Exec(Realloc(Base(id), oldSize, align, newSize, Some(luck)), s).Ok? <==> n <= |s.live[id]|
  {
    MallocFacts(s, newSize, Some(luck));
    DecodeBase(id);
    DecodeBase(s.next);
  }

  lemma {:induction false} ReallocRestIsLuck(
    s: State, id: nat, oldSize: nat, align: nat, newSize: nat, luck: nat -> Byte)
    requires Inv(s) && id in s.live && s.next < MAX_ALLOC_ID && 0 < newSize < HEAP_STRIDE
    requires Exec(Realloc(Base(id), oldSize, align, newSize, Some(luck)), s).Ok?
    ensures var s' := Exec(Realloc(Base(id), oldSize, align, newSize, Some(luck)), s).value.0;
            s.next in s'.live && |s'.live[s.next]| == newSize &&
            forall k :: oldSize <= k < newSize ==> s'.live[s.next][k] == luck(k)
  {
    MallocFacts(s, newSize, Some(luck));
    DecodeBase(id);
    DecodeBase(s.next);
  }

  /** Unlike deallocation, reallocation never compares the old size with the object: for a live
      object it succeeds exactly when the bytes to copy exist, so a smaller old size loses bytes. */
  lemma {:induction false} ReallocTrustsOldSize(
    s: State, id: nat, oldSize: nat, align: nat, newSize: nat, luck: nat -> Byte)
    requires Inv(s) && id in s.live && s.next < MAX_ALLOC_ID && 0 < newSize < HEAP_STRIDE
    requires IsNonzeroPowerOfTwo(align)
    ensures var r := Exec(Realloc(Base(id), oldSize, align, newSize, Some(luck)), s);
            && (r.Ok? <==> (if newSize < oldSize then newSize else oldSize) <= |s.live[id]|)
            && (r.Ok? ==> s.next in r.value.0.live && |r.value.0.live[s.next]| == newSize &&
                          forall k :: oldSize <= k < newSize ==> r.value.0.live[s.next][k] == luck(k))
  {
    ReallocNeedsItsCopy(s, id, oldSize, align, newSize, luck);
    if Exec(Realloc(Base(id), oldSize, align, newSize, Some(luck)), s).Ok? {
      ReallocRestIsLuck(s, id, oldSize, align, newSize, luck);
    }
  }
}
