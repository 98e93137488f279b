/**
 * A client of the allocator: any program of allocations, resizings, releases and byte stores on
 * numbered slots, run on a `Host`.  Its model knows slots and bytes but neither pointers, headers,
 * blocks nor libc.
 */
module AllocatorClient {
  import opened Numbers
  import opened Wrappers
  import opened PowersOfTwo
  import opened Words
  import opened Allocator

  type Slot = nat
  type Length = n: nat | n <= USIZE_MAX
  type Alignment = n: nat | n <= ALIGNMENT_LIMIT

  /**
   * A call on a slot that does not admit it, a store out of bounds, and an alignment that does not
   * round like the slot's own do nothing; the last is what the shim cannot notice by itself.
   */
  datatype Operation =
    | Allocate(slot: Slot, alignment: Alignment, length: Length)
    | Resize(slot: Slot, alignment: Alignment, newLength: Length)
    | Release(slot: Slot, alignment: Alignment)
    | Put(slot: Slot, offset: nat, value: byte)

  /** What the program remembers about a slot it has filled. */
  datatype Entry = Entry(pointer: nat, alignment: nat, length: nat)

  type Table = map<Slot, Entry>

  /** What a slot holds: the alignment it was allocated with, and the known bytes. */
  datatype Held = Held(alignment: nat, known: Known)

  type Slots = map<Slot, Held>

  /** A slot can be resized and released with any alignment that rounds like its own. */
  ghost predicate Admits(k: Slots, slot: Slot, alignment: Alignment) {
    slot in k && SameRounding(k[slot].alignment, alignment)
  }

  /** The meaning of an operation on byte lists alone. */
  ghost function Effect(k: Slots, op: Operation): Slots {
    match op
    case Allocate(slot, alignment, length) =>
      if slot in k then k else k[slot := Held(alignment, Unknown(length))]
    case Resize(slot, alignment, newLength) =>
      if !Admits(k, slot, alignment) then k
      else
        var held := k[slot];
        var kept := Min(|held.known|, newLength);
        k[slot := held.(known := held.known[..kept] + Unknown(newLength - kept))]
    case Release(slot, alignment) => if Admits(k, slot, alignment) then k - {slot} else k
    case Put(slot, i, v) =>
      if slot in k && i < |k[slot].known| then k[slot := k[slot].(known := k[slot].known[i := Some(v)])] else k
  }

  ghost function Meaning(ops: seq<Operation>): Slots {
    if ops == [] then map[] else Effect(Meaning(ops[..|ops| - 1]), ops[|ops| - 1])
  }

  /** Slots and live pointers correspond one to one, and what is known of them is the same. */
  ghost predicate Linked(table: Table, r: map<nat, Known>, k: Slots) {
    && table.Keys == k.Keys
    && (forall s | s in table ::
          && table[s].pointer in r && r[table[s].pointer] == k[s].known && table[s].length == |k[s].known|
          && table[s].alignment == k[s].alignment)
    && (forall s, t | s in table && t in table && table[s].pointer == table[t].pointer :: s == t)
    && (forall p | p in r :: exists s | s in table :: table[s].pointer == p)
  }

  /** Every pointer is remembered with an alignment that finds its header. */
  ghost predicate Located(table: Table, s: Store) {
    forall slot | slot in table ::
      && table[slot].pointer in s
      && s[table[slot].pointer].header == HeaderSize(table[slot].alignment)
      && |s[table[slot].pointer].bytes| == table[slot].length
  }

  /** The table fits the heap `s`, what is known by pointer (`r`) and what is known by slot (`k`). */
  ghost predicate Keeps(table: Table, s: Store, r: map<nat, Known>, k: Slots) {
    Linked(table, r, k) && Located(table, s) && Agrees(s, r)
  }

  /** A slot that is filled or refilled with pointer `q`; `r` no longer has the slot's old pointer. */
  lemma LinkSlot(table: Table, r: map<nat, Known>, k: Slots, slot: Slot, entry: Entry, known: Known)
    requires Linked(table, r, k) && slot !in table && entry.pointer !in r && entry.length == |known|
    ensures Linked(table[slot := entry], r[entry.pointer := known], k[slot := Held(entry.alignment, known)])
  {
    var table', r' := table[slot := entry], r[entry.pointer := known];
    forall p | p in r'
      ensures exists s | s in table' :: table'[s].pointer == p
    {
      if p == entry.pointer {
        assert table'[slot].pointer == p;
      } else {
        var s :| s in table && table[s].pointer == p;
        assert table'[s].pointer == p;
      }
    }
  }

  lemma UnlinkSlot(table: Table, r: map<nat, Known>, k: Slots, slot: Slot)
    requires Linked(table, r, k) && slot in table
    ensures Linked(table - {slot}, r - {table[slot].pointer}, k - {slot})
  {
    var table', r' := table - {slot}, r - {table[slot].pointer};
    forall p | p in r'
      ensures exists s | s in table' :: table'[s].pointer == p
    {
      var s :| s in table && table[s].pointer == p;
      assert table'[s].pointer == p;
    }
  }

  lemma PutLinked(table: Table, r: map<nat, Known>, k: Slots, op: Operation)
    requires Linked(table, r, k) && op.Put? && op.slot in table && op.offset < table[op.slot].length
    ensures Linked(table, Remember(r, Written(table[op.slot].pointer, op.offset, op.value)), Effect(k, op))
  {
    SlotsApart(table, r, k, op.slot);
    var p, known := table[op.slot].pointer, k[op.slot].known[op.offset := Some(op.value)];
    assert Remember(r, Written(p, op.offset, op.value)) == r[p := known];
    assert Effect(k, op) == k[op.slot := k[op.slot].(known := known)];
    hide Remember, Effect;
    assert r[p := known].Keys == r.Keys;
  }

  lemma Located1(table: Table, s: Store, slot: Slot)
    requires Located(table, s) && slot in table
    ensures var entry := table[slot];
            && entry.pointer in s && s[entry.pointer].header == HeaderSize(entry.alignment)
            && |s[entry.pointer].bytes| == entry.length
  {
  }

  /** How a step on one pointer moves the allocations of the slots. */
  lemma StepLocated(table: Table, s: Store, e: Event, s': Store, table': Table, slot: Slot)
    requires Located(table, s) && Step(s, e, s')
    requires forall t | t in table' && t != slot :: t in table && table'[t] == table[t]
    requires forall t | t in table && t != slot && !e.Allocated? ::
               table[t].pointer != if e.Reallocated? then e.oldPointer else e.pointer
    requires slot in table' ==>
               match e
               case Allocated(alignment, length, p) => table'[slot] == Entry(p, alignment, length)
               case Reallocated(p, newLength, q) =>
                 && slot in table && table[slot].pointer == p
                 && table'[slot] == table[slot].(pointer := q, length := newLength)
               case Freed(_) => false
               case Written(_, _, _) => slot in table && table'[slot] == table[slot]
    ensures Located(table', s')
  {
    hide HeaderSize, SamePrefix;
    forall t | t in table'
      ensures table'[t].pointer in s' && s'[table'[t].pointer].header == HeaderSize(table'[t].alignment)
      ensures |s'[table'[t].pointer].bytes| == table'[t].length
    {
      if t in table {
        Located1(table, s, t);
      }
    }
  }

  lemma SlotsApart(table: Table, r: map<nat, Known>, k: Slots, slot: Slot)
    requires Linked(table, r, k) && slot in table
    ensures table.Keys == k.Keys && table[slot].pointer in r && r[table[slot].pointer] == k[slot].known
    ensures table[slot].length == |k[slot].known| && table[slot].alignment == k[slot].alignment
    ensures forall t | t in table && t != slot :: table[t].pointer != table[slot].pointer
  {
  }

  lemma AllocateKeeps(table: Table, s: Store, r: map<nat, Known>, k: Slots,
                      op: Operation, p: nat, s': Store)
    requires Keeps(table, s, r, k) && op.Allocate? && op.slot !in table
    requires Step(s, Allocated(op.alignment, op.length, p), s')
    ensures Keeps(table[op.slot := Entry(p, op.alignment, op.length)], s',
                  Remember(r, Allocated(op.alignment, op.length, p)), Effect(k, op))
  {
    hide HeaderSize, Recalls, Linked, Located;
    KeysLinked(table, r, k);
    StepAgrees(s, Allocated(op.alignment, op.length, p), s', r);
    LinkSlot(table, r, k, op.slot, Entry(p, op.alignment, op.length), Unknown(op.length));
    StepLocated(table, s, Allocated(op.alignment, op.length, p), s',
                table[op.slot := Entry(p, op.alignment, op.length)], op.slot);
  }

  lemma Unmoved(s: Store, e: Event, s': Store, r: map<nat, Known>)
    requires Step(s, e, s') && Agrees(s, r) && e.Reallocated?
    ensures e.pointer !in r - {e.oldPointer}
  {
    hide Recalls, SamePrefix;
  }

  lemma ResizeKeeps(table: Table, s: Store, r: map<nat, Known>, k: Slots,
                    op: Operation, q: nat, s': Store)
    requires Keeps(table, s, r, k) && op.Resize? && op.slot in table && Admits(k, op.slot, op.alignment)
    requires Step(s, Reallocated(table[op.slot].pointer, op.newLength, q), s')
    ensures Keeps(table[op.slot := table[op.slot].(pointer := q, length := op.newLength)], s',
                  Remember(r, Reallocated(table[op.slot].pointer, op.newLength, q)), Effect(k, op))
  {
    hide HeaderSize, Agrees, Step, Located, Linked, SameRounding;
    SlotsApart(table, r, k, op.slot);
    var e := Reallocated(table[op.slot].pointer, op.newLength, q);
    var entry := table[op.slot].(pointer := q, length := op.newLength);
    var kept := Min(|k[op.slot].known|, op.newLength);
    var known := k[op.slot].known[..kept] + Unknown(op.newLength - kept);
    StepAgrees(s, e, s', r);
    Unmoved(s, e, s', r);
    UnlinkSlot(table, r, k, op.slot);
    LinkSlot(table - {op.slot}, r - {e.oldPointer}, k - {op.slot}, op.slot, entry, known);
    assert (table - {op.slot})[op.slot := entry] == table[op.slot := entry];
    assert (k - {op.slot})[op.slot := Held(entry.alignment, known)] == k[op.slot := Held(entry.alignment, known)];
    StepLocated(table, s, e, s', table[op.slot := entry], op.slot);
  }

  lemma ReleaseKeeps(table: Table, s: Store, r: map<nat, Known>, k: Slots, op: Operation, s': Store)
    requires Keeps(table, s, r, k) && op.Release? && op.slot in table && Admits(k, op.slot, op.alignment)
    requires Step(s, Freed(table[op.slot].pointer), s')
    ensures Keeps(table - {op.slot}, s', Remember(r, Freed(table[op.slot].pointer)), Effect(k, op))
  {
    hide HeaderSize, Agrees, Step, Located, Linked, SameRounding;
    SlotsApart(table, r, k, op.slot);
    StepAgrees(s, Freed(table[op.slot].pointer), s', r);
    UnlinkSlot(table, r, k, op.slot);
    StepLocated(table, s, Freed(table[op.slot].pointer), s', table - {op.slot}, op.slot);
  }

  lemma PutKeeps(table: Table, s: Store, r: map<nat, Known>, k: Slots, op: Operation, s': Store)
    requires Keeps(table, s, r, k) && op.Put? && op.slot in table && op.offset < table[op.slot].length
    requires Step(s, Written(table[op.slot].pointer, op.offset, op.value), s')
    ensures Keeps(table, s', Remember(r, Written(table[op.slot].pointer, op.offset, op.value)), Effect(k, op))
  {
    hide HeaderSize, Agrees, Step, Located, Linked;
    var e := Written(table[op.slot].pointer, op.offset, op.value);
    SlotsApart(table, r, k, op.slot);
    StepAgrees(s, e, s', r);
    PutLinked(table, r, k, op);
    StepLocated(table, s, e, s', table, op.slot);
  }

  /** One operation; `event` is what the shim was asked for, if anything. */
  method Perform(h: Host, op: Operation, table: Table, ghost r: map<nat, Known>, ghost k: Slots)
    returns (table': Table, ghost event: Option<Event>)
    requires h.Valid() && !h.exited && Keeps(table, h.contents, r, k)
    modifies h, h.mem
    ensures h.Valid()
    ensures h.exited ==> (op.Allocate? || op.Resize?) && table' == table && event.None? && h.contents == old(h.contents)
    ensures !h.exited ==>
              Keeps(table', h.contents, if event.Some? then Remember(r, event.value) else r, Effect(k, op))
  {
    hide Step, Linked, Agrees, HeaderSize, Effect, Remember, Admits;
    table', event := table, None;
    assert table.Keys == k.Keys by { KeysLinked(table, r, k); }
    match op {
      case Allocate(slot, alignment, length) =>
        if slot !in table {
          var answer := h.Alloc(alignment, length);
          if answer.Some? {
            event := Some(Allocated(alignment, length, answer.value));
            table' := table[slot := Entry(answer.value, alignment, length)];
            AllocateKeeps(table, old(h.contents), r, k, op, answer.value, h.contents);
          }
        } else {
          Skipped(table, r, k, op);
        }
      case Resize(slot, alignment, newLength) =>
        if slot in table && HeaderSize(alignment) == HeaderSize(table[slot].alignment) {
          Admitted(table, r, k, slot, alignment);
          Located1(table, h.contents, slot);
          var entry := table[slot];
          var answer := h.Reallocate(entry.pointer, alignment, newLength);
          if answer.Some? {
            event := Some(Reallocated(entry.pointer, newLength, answer.value));
            table' := table[slot := entry.(pointer := answer.value, length := newLength)];
            ResizeKeeps(table, old(h.contents), r, k, op, answer.value, h.contents);
          }
        } else {
          Skipped(table, r, k, op);
        }
      case Release(slot, alignment) =>
        if slot in table && HeaderSize(alignment) == HeaderSize(table[slot].alignment) {
          Admitted(table, r, k, slot, alignment);
          Located1(table, h.contents, slot);
          h.Dealloc(table[slot].pointer, alignment);
          event := Some(Freed(table[slot].pointer));
          table' := table - {slot};
          ReleaseKeeps(table, old(h.contents), r, k, op, h.contents);
        } else {
          Skipped(table, r, k, op);
        }
      case Put(slot, offset, value) =>
        if slot in table && offset < table[slot].length {
          h.Write(table[slot].pointer, offset, value);
          event := Some(Written(table[slot].pointer, offset, value));
          PutKeeps(table, old(h.contents), r, k, op, h.contents);
        } else {
          Skipped(table, r, k, op);
        }
    }
  }

  lemma KeysLinked(table: Table, r: map<nat, Known>, k: Slots)
    requires Linked(table, r, k)
    ensures table.Keys == k.Keys
  {
  }

  lemma Skipped(table: Table, r: map<nat, Known>, k: Slots, op: Operation)
    requires Linked(table, r, k)
    requires match op
             case Allocate(slot, _, _) => slot in table
             case Resize(slot, alignment, _) =>
               slot in table ==> HeaderSize(alignment) != HeaderSize(table[slot].alignment)
             case Release(slot, alignment) =>
               slot in table ==> HeaderSize(alignment) != HeaderSize(table[slot].alignment)
             case Put(slot, offset, _) => slot in table ==> table[slot].length <= offset
    ensures Effect(k, op) == k
  {
    hide HeaderSize, SameRounding;
    match op
    case Resize(slot, alignment, _) =>
      if slot in table { Admitted(table, r, k, slot, alignment); }
    case Release(slot, alignment) =>
      if slot in table { Admitted(table, r, k, slot, alignment); }
    case _ =>
  }

  /** The header test that the client can make decides what its model admits. */
  lemma Admitted(table: Table, r: map<nat, Known>, k: Slots, slot: Slot, alignment: Alignment)
    requires Linked(table, r, k) && slot in table
    ensures Admits(k, slot, alignment) <==> HeaderSize(alignment) == HeaderSize(table[slot].alignment)
  {
    hide HeaderSize, SameRounding;
    BaseRecovery(0, table[slot].alignment, alignment);
  }

  /** Each slot has its own live pointer, there are no others, and each has the slot's bytes. */
  ghost predicate Holds(table: Table, s: Store, k: Slots) {
    && table.Keys == k.Keys
    && (forall slot | slot in table :: table[slot].pointer in s && Recalls(s[table[slot].pointer], k[slot].known))
    && (forall s, t | s in table && t in table && s != t :: table[s].pointer != table[t].pointer)
    && s.Keys == set slot | slot in table :: table[slot].pointer
  }

  /**
   * The whole shim, end to end: whatever program a client runs and wherever libc puts the blocks,
   * until the process exits each slot holds every byte that the program's own meaning says it has,
   * and the live pointers are exactly those of its slots.
   */
  method RunClient(h: Host, ops: seq<Operation>) returns (table: Table, ghost done: nat, ghost events: seq<Event>)
    requires h.Valid() && !h.exited && h.contents == map[]
    modifies h, h.mem
    ensures h.Valid() && done <= |ops| && (!h.exited ==> done == |ops|)
    ensures h.exited ==> done < |ops| && (ops[done].Allocate? || ops[done].Resize?)
    ensures Agrees(h.contents, Replay(events))
    ensures Holds(table, h.contents, Meaning(ops[..done]))
  {
    hide Effect, Remember, Keeps, Holds, Agrees, Replay, Meaning, LibcInv, Refines;
    NothingKept();
    table, done, events := map[], 0, [];
    var i := 0;
    while i < |ops| && !h.exited
      invariant h.Valid()
      invariant done <= i <= |ops| && (!h.exited ==> done == i)
      invariant h.exited ==> done < |ops| && (ops[done].Allocate? || ops[done].Resize?)
      invariant Keeps(table, h.contents, Replay(events), Meaning(ops[..done]))
    {
      ghost var event;
      table, event := Perform(h, ops[i], table, Replay(events), Meaning(ops[..i]));
      MeaningNext(ops, i);
      i := i + 1;
      if !h.exited {
        done := i;
        if event.Some? {
          ReplayNext(events, event.value);
          events := events + [event.value];
        }
      }
    }
    KeptSlots(table, h.contents, Replay(events), Meaning(ops[..done]));
  }

  lemma MeaningNext(ops: seq<Operation>, i: nat)
    requires i < |ops|
    ensures Meaning(ops[..i + 1]) == Effect(Meaning(ops[..i]), ops[i])
  {
    hide Effect;
    assert ops[..i + 1][..i] == ops[..i];
  }

  lemma ReplayNext(events: seq<Event>, e: Event)
    ensures Replay(events + [e]) == Remember(Replay(events), e)
  {
    hide Remember;
    assert (events + [e])[..|events|] == events;
  }

  lemma NothingKept()
    ensures Keeps(map[], map[], Replay([]), Meaning([])) && forall ops: seq<Operation> :: ops[..0] == []
  {
  }

  lemma KeptSlots(table: Table, s: Store, r: map<nat, Known>, k: Slots)
    requires Keeps(table, s, r, k)
    ensures Holds(table, s, k) && Agrees(s, r)
  {
    hide Recalls, Located;
  }
}
