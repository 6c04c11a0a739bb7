/** Public handles over three arenas: a two-level table in which a registered handle
    always resolves and no handle is ever issued twice. */
module GpuResources {
  import opened Wrappers
  import opened Words
  import opened A = Arena

  datatype ResourceKind = Buffer | Kernel | Binding
  datatype ResourceRef = ResourceRef(kind: ResourceKind, internal: Handle)

  datatype GpuError =
    | StaleHandle(handle: nat)
    | WrongHandle(handle: nat, expected: ResourceKind, actual: ResourceKind)
    | OutOfBounds
    | InvalidArgument
    | MissingBinding(writable: bool, slot: nat)
    | DownloadPending(handle: nat)
    | DownloadUnread(handle: nat)
    | DownloadNotReady(handle: nat)
    | DownloadMismatch
    | Validation
    | Device
    | Poll
    | Map
    | Capacity
    | Internal

  /** `Status` as a `GpuError`; a stale arena handle is reported as an internal fault. */
  function FromStatus(status: Status): GpuError
  {
    match status
    case Capacity => GpuError.Capacity
    case StaleHandle => Internal
  }

  function Converted<T>(r: Result<T, Status>): Result<T, GpuError>
  {
    if r.Ok? then Ok(r.value) else Err(FromStatus(r.error))
  }

  /** The process-wide counter that every context draws its public handles from. */
  class HandleCounter {
    var next: u64

    constructor ()
      ensures next == 1
    {
      next := 1;
    }

    /** `fetch_update` with `checked_add`: the old value, or nothing once it is the last. */
    method Draw() returns (r: Option<u64>)
      modifies this
      ensures r == if old(next) == U64_MAX then None else Some(old(next))
      ensures next == if r.Some? then old(next) + 1 else old(next)
    {
      if next == U64_MAX {
        return None;
      }
      next := next + 1;
      return Some(next - 1);
    }
  }

  /** The public half: what every handle given out and not taken back stands for. */
  class Table {
    const counter: HandleCounter
    var public: map<u64, ResourceRef>

    /** Every registered handle was drawn from the counter. */
    ghost predicate Valid()
      reads this, counter
    {
      forall h :: h in public ==> h < counter.next
    }

    constructor (counter: HandleCounter)
      ensures Valid() && this.counter == counter && public == map[]
    {
      this.counter := counter;
      public := map[];
    }

    /** Draws a handle that was never issued before, so the table cannot already hold it. */
    method PublicHandle(reference: ResourceRef) returns (r: Result<u64, GpuError>)
      requires Valid()
      modifies this, counter
      ensures Valid()
      ensures r.Err? == (old(counter.next) == U64_MAX)
      ensures r.Err? ==> r.error == GpuError.Capacity && public == old(public) && counter.next == old(counter.next)
      ensures r.Ok? ==>
                && r.value == old(counter.next) && counter.next == r.value + 1
                && r.value !in old(public) && public == old(public)[r.value := reference]
    {
      var drawn := counter.Draw();
      if drawn.None? {
        return Err(GpuError.Capacity);
      }
      var collides := drawn.value in public;
      assert !collides;
      public := public[drawn.value := reference];
      return Ok(drawn.value);
    }

    predicate Names(handle: u64, kind: ResourceKind)
      reads this
    {
      handle in public && public[handle].kind == kind
    }

    /** The error for a handle that is not registered as the kind asked for. */
    function Refusal(handle: u64, expected: ResourceKind): (e: GpuError)
      requires !Names(handle, expected)
      reads this
      ensures !e.Internal?
    {
      if handle !in public then GpuError.StaleHandle(handle)
      else WrongHandle(handle, expected, public[handle].kind)
    }

    method Reference(handle: u64, expected: ResourceKind) returns (r: Result<ResourceRef, GpuError>)
      ensures r == if Names(handle, expected) then Ok(public[handle]) else Err(Refusal(handle, expected))
    {
      if handle !in public {
        return Err(GpuError.StaleHandle(handle));
      }
      if public[handle].kind != expected {
        return Err(WrongHandle(handle, expected, public[handle].kind));
      }
      return Ok(public[handle]);
    }
  }

  // ----- calls and what they must answer -----

  datatype Call<T> = Insert(value: T) | Get(handle: u64) | Remove(handle: u64)

  /** What a call answered. `internal` is the arena's handle behind an issued one: no caller
      sees it, and it says when a slot of the arena is used up. */
  datatype Outcome = Issued(handle: u64, internal: Handle) | Done | Refused(error: GpuError)

  function Told<T>(r: Result<T, GpuError>): Outcome { if r.Ok? then Done else Refused(r.error) }

  /** What one kind of resource is answered from: the next handle, the handles that stand,
      and the arena handles of this kind that have been removed. */
  datatype Page = Page(next: nat, standing: map<u64, ResourceRef>, gone: set<Handle>)

  ghost function Internals(standing: map<u64, ResourceRef>, kind: ResourceKind): set<Handle>
  {
    set h | h in standing && standing[h].kind == kind :: standing[h].internal
  }

  /** The counter is at its end, or the arena of this kind has no slot left. */
  ghost predicate OutOfRoom(p: Page, kind: ResourceKind)
  {
    p.next == U64_MAX || Full(Internals(p.standing, kind), p.gone)
  }

  function Turned<T>(p: Page, kind: ResourceKind, call: Call<T>, o: Outcome): Page
  {
    if call.Insert? && o.Issued? then
      p.(next := p.next + 1, standing := p.standing[o.handle := ResourceRef(kind, o.internal)])
    else if call.Remove? && o.Done? && call.handle in p.standing then
      p.(standing := p.standing - {call.handle}, gone := p.gone + {p.standing[call.handle].internal})
    else p
  }

  /** What a lookup or a removal answers: success exactly for a standing handle of its kind,
      and otherwise whether the handle is stale or of which other kind. */
  function Looked(p: Page, kind: ResourceKind, handle: u64): Outcome
  {
    if handle !in p.standing then Refused(GpuError.StaleHandle(handle))
    else if p.standing[handle].kind != kind then Refused(WrongHandle(handle, kind, p.standing[handle].kind))
    else Done
  }

  /** An insert refuses exactly when there is no room; otherwise it answers the next handle,
      over an arena handle not used before. */
  ghost predicate Expected<T>(p: Page, kind: ResourceKind, call: Call<T>, o: Outcome)
  {
    match call
    case Insert(_) =>
      if OutOfRoom(p, kind) then o == Refused(GpuError.Capacity)
      else o.Issued? && o.handle == p.next && o.internal !in Internals(p.standing, kind) + p.gone
    case Get(handle) => o == Looked(p, kind, handle)
    case Remove(handle) => o == Looked(p, kind, handle)
  }

  lemma InsertTold<T>(p: Page, kind: ResourceKind, value: T, internal: Handle)
    requires p.next < U64_MAX && !OutOfRoom(p, kind) && internal !in Internals(p.standing, kind) + p.gone
    ensures Expected(p, kind, Call<T>.Insert(value), Issued(p.next, internal))
    ensures Turned(p, kind, Call<T>.Insert(value), Issued(p.next, internal)) ==
            Page(p.next + 1, p.standing[p.next := ResourceRef(kind, internal)], p.gone)
  {
  }

  lemma RemoveTold<T>(p: Page, kind: ResourceKind, handle: u64)
    requires handle in p.standing
    ensures Turned(p, kind, Call<T>.Remove(handle), Done) ==
            Page(p.next, p.standing - {handle}, p.gone + {p.standing[handle].internal})
  {
  }

  // ----- one kind of resource, on values -----

  /** The handles of one kind stand one to one for what its arena holds: `named` is what they
      name, and `owner` leads back from an arena handle to its public one. */
  ghost predicate Registered<T>(public: map<u64, ResourceRef>, kind: ResourceKind, view: map<Handle, T>,
                                named: map<u64, T>, owner: map<Handle, u64>)
  {
    && (forall h :: h in named <==> h in public && public[h].kind == kind)
    && (forall h :: h in named ==> Resolves(public[h].internal, h, view, named, owner))
    && (forall i :: i in view ==> i in owner && owner[i] in named && public[owner[i]].internal == i)
  }

  ghost predicate Resolves<T>(i: Handle, h: u64, view: map<Handle, T>, named: map<u64, T>, owner: map<Handle, u64>)
    requires h in named
  {
    i in view && named[h] == view[i] && i in owner && owner[i] == h
  }

  /** So the arena's live handles are those behind the standing ones. */
  lemma RegisteredInternals<T>(public: map<u64, ResourceRef>, kind: ResourceKind, view: map<Handle, T>,
                               named: map<u64, T>, owner: map<Handle, u64>)
    requires Registered(public, kind, view, named, owner)
    ensures Internals(public, kind) == view.Keys
  {
    forall h | h in public && public[h].kind == kind ensures public[h].internal in view {
      assert Resolves(public[h].internal, h, view, named, owner);
    }
    forall i | i in view ensures i in Internals(public, kind) {
      assert public[owner[i]].internal == i;
    }
  }

  /** Only handles of this kind differ. */
  ghost predicate OthersKept(before: map<u64, ResourceRef>, after: map<u64, ResourceRef>, kind: ResourceKind)
  {
    && (forall h :: h in before && before[h].kind != kind ==> h in after && after[h] == before[h])
    && (forall h :: h in after && after[h].kind != kind ==> h in before && before[h] == after[h])
  }

  lemma RegisterAdds<T>(public: map<u64, ResourceRef>, ref: ResourceRef, h: u64, value: T,
                        view: map<Handle, T>, named: map<u64, T>, owner: map<Handle, u64>)
    requires Registered(public, ref.kind, view, named, owner) && h !in public && ref.internal !in view
    ensures Registered(public[h := ref], ref.kind, view[ref.internal := value], named[h := value], owner[ref.internal := h])
  {
    forall g | g in named ensures Resolves(public[g].internal, g, view, named, owner) {
    }
  }

  lemma RegisterPuts<T>(public: map<u64, ResourceRef>, kind: ResourceKind, h: u64, value: T,
                        view: map<Handle, T>, named: map<u64, T>, owner: map<Handle, u64>)
    requires Registered(public, kind, view, named, owner) && h in named
    ensures Registered(public, kind, view[public[h].internal := value], named[h := value], owner)
  {
    forall g | g in named ensures Resolves(public[g].internal, g, view, named, owner) {
    }
  }

  lemma RegisterDrops<T>(public: map<u64, ResourceRef>, kind: ResourceKind, h: u64,
                         view: map<Handle, T>, named: map<u64, T>, owner: map<Handle, u64>)
    requires Registered(public, kind, view, named, owner) && h in named
    ensures Registered(public - {h}, kind, view - {public[h].internal}, named - {h}, owner)
  {
    forall g | g in named ensures Resolves(public[g].internal, g, view, named, owner) {
    }
  }

  /** A change to handles of one kind leaves those of another registered as they were. */
  lemma RegisteredElsewhere<T>(before: map<u64, ResourceRef>, after: map<u64, ResourceRef>, changed: ResourceKind,
                               kind: ResourceKind, view: map<Handle, T>, named: map<u64, T>, owner: map<Handle, u64>)
    requires Registered(before, kind, view, named, owner) && OthersKept(before, after, changed) && kind != changed
    ensures Registered(after, kind, view, named, owner)
  {
    forall h | h in named ensures Resolves(after[h].internal, h, view, named, owner) {
      assert Resolves(before[h].internal, h, view, named, owner);
    }
  }

  lemma AddKeepsOthers(public: map<u64, ResourceRef>, h: u64, ref: ResourceRef)
    requires h !in public
    ensures OthersKept(public, public[h := ref], ref.kind)
  {
  }

  lemma DropKeepsOthers(public: map<u64, ResourceRef>, h: u64)
    requires h in public
    ensures OthersKept(public, public - {h}, public[h].kind)
  {
  }

  /** While the counter has handles left, `gone` lists what the arena has given up. Once it is
      at its end, an insert that it refuses uses up an arena handle that is not listed. */
  ghost predicate Accounted<T>(next: nat, gone: set<Handle>, g: Ledger<T>)
  {
    next < U64_MAX ==> gone == g.ids.Keys - g.view.Keys
  }

  lemma AccountedAdds<T>(next: nat, gone: set<Handle>, g: Ledger<T>, after: Ledger<T>, h: Handle, value: T)
    requires Accounted(next, gone, g) && h !in g.ids
    requires after.ids.Keys == g.ids.Keys + {h} && after.view == g.view[h := value]
    ensures Accounted(next + 1, gone, after)
  {
    assert after.view.Keys == g.view.Keys + {h};
  }

  lemma AccountedPuts<T>(next: nat, gone: set<Handle>, g: Ledger<T>, after: Ledger<T>, h: Handle, value: T)
    requires Accounted(next, gone, g) && h in g.view
    requires after.ids == g.ids && after.view == g.view[h := value]
    ensures Accounted(next, gone, after)
  {
    assert after.view.Keys == g.view.Keys;
  }

  lemma AccountedDrops<T>(next: nat, gone: set<Handle>, g: Ledger<T>, after: Ledger<T>, h: Handle)
    requires Accounted(next, gone, g) && h in g.view && h in g.ids
    requires after.ids == g.ids && after.view == g.view - {h}
    ensures Accounted(next, gone + {h}, after)
  {
    assert after.view.Keys == g.view.Keys - {h};
  }

  lemma PutThenDrop<T>(m: map<Handle, T>, i: Handle, value: T)
    requires i !in m
    ensures m[i := value] - {i} == m
  {
  }

  /** The resources of one kind: its arena behind the shared table. */
  class Shelf<T> {
    const table: Table
    const kind: ResourceKind
    const arena: Arena<T>
    /** What the public handles of this kind name. */
    ghost var named: map<u64, T>
    ghost var owner: map<Handle, u64>
    /** The arena handles that were taken out again. */
    ghost var gone: set<Handle>

    ghost predicate Valid()
      reads this, table, table.counter, arena
    {
      table.Valid() && Linked(table.counter.next, table.public)
    }

    ghost predicate Linked(next: nat, public: map<u64, ResourceRef>)
      reads this, arena
    {
      && arena.Valid() && Registered(public, kind, arena.told.view, named, owner)
      && Accounted(next, gone, arena.told)
    }

    /** Calls on another kind of resource leave this one linked to the table. */
    lemma LinkedElsewhere(next: nat, before: map<u64, ResourceRef>, changed: ResourceKind)
      requires Linked(next, before) && OthersKept(before, table.public, changed) && kind != changed
      requires table.Valid() && next <= table.counter.next
      ensures Valid()
    {
      RegisteredElsewhere(before, table.public, changed, kind, arena.told.view, named, owner);
    }

    ghost function Shown(): Page
      reads this, table, table.counter
    {
      Page(table.counter.next, table.public, gone)
    }

    constructor (table: Table, kind: ResourceKind)
      requires table.Valid() && forall h :: h in table.public ==> table.public[h].kind != kind
      ensures Valid() && this.table == table && this.kind == kind && fresh(arena) && named == map[] && gone == {}
    {
      this.table, this.kind := table, kind;
      arena := new Arena<T>();
      named, owner, gone := map[], map[], {};
    }

    /** What the arena knows of its room is what the page shows of it. */
    lemma RoomShown()
      requires Valid() && table.counter.next < U64_MAX
      ensures Exhausted(arena.told) == OutOfRoom(Shown(), kind)
      ensures Internals(table.public, kind) + gone <= arena.told.ids.Keys
    {
      ViewIssued(arena);
      RegisteredInternals(table.public, kind, arena.told.view, named, owner);
    }

    /** A fresh public handle naming the value, or a refusal that leaves nothing behind. */
    method Insert(value: T) returns (r: Result<u64, GpuError>)
      requires Valid()
      modifies this, arena, table, table.counter
      ensures Valid() && OthersKept(old(table.public), table.public, kind)
      ensures r.Err? == OutOfRoom(old(Shown()), kind)
      ensures r.Err? ==> r.error == GpuError.Capacity && named == old(named) && Shown() == old(Shown())
      ensures r.Ok? ==>
                && r.value == old(table.counter.next) && table.counter.next == r.value + 1
                && r.value !in old(table.public) && named == old(named)[r.value := value] && gone == old(gone)
                && r.value in table.public && table.public[r.value].kind == kind
                && table.public == old(table.public)[r.value := table.public[r.value]]
                && table.public[r.value].internal !in Internals(old(table.public), kind) + gone
    {
      if table.counter.next < U64_MAX {
        RoomShown();
      }
      ViewIssued(arena);
      ghost var g := arena.told;
      ghost var view, before := g.view, named;
      var internal := arena.Insert(value);
      assert named == before;
      if internal.Err? {
        return Err(FromStatus(internal.error));
      }
      AccountedAdds(table.counter.next, gone, g, arena.told, internal.value, value);
      r := PublishOrUndo(internal.value, value, view);
    }

    /** A public handle for what the arena has just stored; without one the arena gives it up. */
    method PublishOrUndo(internal: Handle, value: T, ghost view: map<Handle, T>) returns (r: Result<u64, GpuError>)
      requires table.Valid() && internal !in view && Registered(table.public, kind, view, named, owner)
      requires arena.Valid() && arena.told.view == view[internal := value] && Accounted(table.counter.next + 1, gone, arena.told)
      modifies this, arena, table, table.counter
      ensures Valid() && OthersKept(old(table.public), table.public, kind)
      ensures r.Err? == (old(table.counter.next) == U64_MAX)
      ensures r.Err? ==> r.error == GpuError.Capacity && named == old(named) && Shown() == old(Shown())
      ensures r.Ok? ==>
                && r.value == old(table.counter.next) && table.counter.next == r.value + 1
                && r.value !in old(table.public) && named == old(named)[r.value := value] && gone == old(gone)
                && table.public == old(table.public)[r.value := ResourceRef(kind, internal)]
    {
      r := Publish(internal, value, view);
      if r.Err? {
        PutThenDrop(view, internal, value);
        var _ := arena.Remove(internal);
      }
    }

    /** Gives what the arena has just stored a public handle. */
    method Publish(internal: Handle, value: T, ghost view: map<Handle, T>) returns (r: Result<u64, GpuError>)
      requires table.Valid() && internal !in view && Registered(table.public, kind, view, named, owner)
      modifies this, table, table.counter
      ensures table.Valid() && OthersKept(old(table.public), table.public, kind) && gone == old(gone)
      ensures r.Err? == (old(table.counter.next) == U64_MAX)
      ensures r.Err? ==>
                && r.error == GpuError.Capacity && named == old(named) && owner == old(owner)
                && table.public == old(table.public) && table.counter.next == old(table.counter.next)
      ensures r.Ok? ==>
                && Registered(table.public, kind, view[internal := value], named, owner)
                && table.public == old(table.public)[r.value := ResourceRef(kind, internal)]
                && r.value == old(table.counter.next) && table.counter.next == r.value + 1
                && r.value !in old(table.public) && named == old(named)[r.value := value]
    {
      ghost var public := table.public;
      var reference := ResourceRef(kind, internal);
      r := table.PublicHandle(reference);
      if r.Ok? {
        RegisterAdds(public, reference, r.value, value, view, named, owner);
        AddKeepsOthers(public, r.value, reference);
        named, owner := named[r.value := value], owner[internal := r.value];
      }
    }

    /** A registered handle is never rejected by the arena. */
    method Get(handle: u64) returns (r: Result<T, GpuError>)
      requires Valid()
      ensures handle in named <==> table.Names(handle, kind)
      ensures r == if handle in named then Ok(named[handle]) else Err(table.Refusal(handle, kind))
    {
      var reference := table.Reference(handle, kind);
      if reference.Err? {
        return Err(reference.error);
      }
      assert Resolves(reference.value.internal, handle, arena.told.view, named, owner);
      var found := arena.Get(reference.value.internal);
      return Converted(found);
    }

    /** An assignment through the reference lent for a handle. */
    method Put(handle: u64, value: T) returns (r: Result<(), GpuError>)
      requires Valid()
      modifies this, arena
      ensures Valid()
      ensures handle in old(named) <==> table.Names(handle, kind)
      ensures r == if handle in old(named) then Ok(()) else Err(table.Refusal(handle, kind))
      ensures r.Ok? ==> named == old(named)[handle := value]
      ensures r.Err? ==> named == old(named)
      ensures Shown() == old(Shown())
    {
      var reference := table.Reference(handle, kind);
      if reference.Err? {
        return Err(reference.error);
      }
      Assign(handle, reference.value.internal, value);
      return Ok(());
    }

    method Assign(handle: u64, internal: Handle, value: T)
      requires Valid() && handle in named && table.public[handle].internal == internal
      modifies this`named, arena
      ensures Valid() && named == old(named)[handle := value]
    {
      assert Resolves(internal, handle, arena.told.view, named, owner);
      RegisterPuts(table.public, kind, handle, value, arena.told.view, named, owner);
      ghost var g := arena.told;
      var found := arena.Put(internal, value);
      assert found.Ok?;
      AccountedPuts(table.counter.next, gone, g, arena.told, internal, value);
      named := named[handle := value];
    }

    /** Takes the value out of both levels. */
    method Remove(handle: u64) returns (r: Result<T, GpuError>)
      requires Valid()
      modifies this, arena, table
      ensures Valid() && OthersKept(old(table.public), table.public, kind)
      ensures handle in old(named) <==> old(table.Names(handle, kind))
      ensures r == if handle in old(named) then Ok(old(named)[handle]) else Err(old(table.Refusal(handle, kind)))
      ensures r.Ok? ==> named == old(named) - {handle} && Shown() == Turned(old(Shown()), kind, Call<T>.Remove(handle), Done)
      ensures r.Err? ==> named == old(named) && Shown() == old(Shown())
    {
      var reference := table.Reference(handle, kind);
      if reference.Err? {
        return Err(reference.error);
      }
      DropKeepsOthers(table.public, handle);
      RemoveTold<T>(Shown(), kind, handle);
      var value := Take(handle, reference.value.internal);
      return Ok(value);
    }

    method Take(handle: u64, internal: Handle) returns (value: T)
      requires Valid() && handle in named && table.public[handle].internal == internal
      modifies this`named, this`gone, arena, table
      ensures Valid() && value == old(named)[handle]
      ensures named == old(named) - {handle} && table.public == old(table.public) - {handle}
      ensures gone == old(gone) + {internal}
    {
      assert Resolves(internal, handle, arena.told.view, named, owner);
      Withdraw(handle, arena.told.view);
      value := Vacate(internal);
    }

    /** Takes a value out of the arena. */
    method Vacate(internal: Handle) returns (value: T)
      requires arena.Valid() && Accounted(table.counter.next, gone, arena.told) && internal in arena.told.view
      modifies this`gone, arena
      ensures arena.Valid() && Accounted(table.counter.next, gone, arena.told) && gone == old(gone) + {internal}
      ensures value == old(arena.told.view)[internal] && arena.told.view == old(arena.told.view) - {internal}
    {
      ViewIssued(arena);
      ghost var g := arena.told;
      var found := arena.Remove(internal);
      assert found.Ok?;
      AccountedDrops(table.counter.next, gone, g, arena.told, internal);
      gone := gone + {internal};
      return found.value;
    }

    /** Takes a public handle back. */
    method Withdraw(handle: u64, ghost view: map<Handle, T>)
      requires table.Valid() && Registered(table.public, kind, view, named, owner) && handle in named
      modifies this`named, table
      ensures table.Valid() && Registered(table.public, kind, view - {old(table.public)[handle].internal}, named, owner)
      ensures named == old(named) - {handle} && table.public == old(table.public) - {handle}
    {
      RegisterDrops(table.public, kind, handle, view, named, owner);
      table.public := table.public - {handle};
      named := named - {handle};
    }

    /** Any one call, told through the page. */
    method Do(call: Call<T>) returns (o: Outcome)
      requires Valid()
      modifies this, arena, table, table.counter
      ensures Valid() && OthersKept(old(table.public), table.public, kind)
      ensures Expected(old(Shown()), kind, call, o)
      ensures Shown() == Turned(old(Shown()), kind, call, o)
    {
      match call {
        case Insert(value) => o := DoInsert(value);
        case Get(handle) =>
          var r := Get(handle);
          o := Told(r);
        case Remove(handle) =>
          var r := Remove(handle);
          o := Told(r);
      }
    }

    method DoInsert(value: T) returns (o: Outcome)
      requires Valid()
      modifies this, arena, table, table.counter
      ensures Valid() && OthersKept(old(table.public), table.public, kind)
      ensures Expected(old(Shown()), kind, Call<T>.Insert(value), o)
      ensures Shown() == Turned(old(Shown()), kind, Call<T>.Insert(value), o)
    {
      ghost var p := Shown();
      var r := Insert(value);
      if r.Err? {
        return Refused(r.error);
      }
      InsertTold(p, kind, value, table.public[r.value].internal);
      return Issued(r.value, table.public[r.value].internal);
    }
  }

  // ----- the three kinds together -----

  /** A call on one kind of resource. */
  datatype Op<B, K, D> = OnBuffers(buffer: Call<B>) | OnKernels(kernel: Call<K>) | OnBindings(binding: Call<D>)

  /** The pages of the three kinds, which share the counter and the standing handles. */
  datatype Books = Books(next: nat, standing: map<u64, ResourceRef>,
                         buffers: set<Handle>, kernels: set<Handle>, bindings: set<Handle>)
  {
    function Buffers(): Page { Page(next, standing, buffers) }
    function Kernels(): Page { Page(next, standing, kernels) }
    function Bindings(): Page { Page(next, standing, bindings) }
  }

  /** The outcome is the one expected of the call after those before it. */
  ghost predicate ExpectedOf<B, K, D>(b: Books, op: Op<B, K, D>, o: Outcome)
  {
    match op
    case OnBuffers(call) => Expected(b.Buffers(), Buffer, call, o)
    case OnKernels(call) => Expected(b.Kernels(), Kernel, call, o)
    case OnBindings(call) => Expected(b.Bindings(), Binding, call, o)
  }

  function Booked<B, K, D>(b: Books, op: Op<B, K, D>, o: Outcome): Books
  {
    match op
    case OnBuffers(call) =>
      var p := Turned(b.Buffers(), Buffer, call, o);
      Books(p.next, p.standing, p.gone, b.kernels, b.bindings)
    case OnKernels(call) =>
      var p := Turned(b.Kernels(), Kernel, call, o);
      Books(p.next, p.standing, b.buffers, p.gone, b.bindings)
    case OnBindings(call) =>
      var p := Turned(b.Bindings(), Binding, call, o);
      Books(p.next, p.standing, b.buffers, b.kernels, p.gone)
  }

  /** The outcome is right and the books follow it. */
  ghost predicate Keeps<B, K, D>(b: Books, after: Books, op: Op<B, K, D>, o: Outcome)
  {
    ExpectedOf(b, op, o) && after == Booked(b, op, o)
  }

  lemma BuffersBooked<B, K, D>(b: Books, after: Books, call: Call<B>, o: Outcome)
    requires Expected(b.Buffers(), Buffer, call, o) && after.Buffers() == Turned(b.Buffers(), Buffer, call, o)
    requires after.kernels == b.kernels && after.bindings == b.bindings
    ensures Keeps(b, after, Op<B, K, D>.OnBuffers(call), o)
  {
  }

  lemma KernelsBooked<B, K, D>(b: Books, after: Books, call: Call<K>, o: Outcome)
    requires Expected(b.Kernels(), Kernel, call, o) && after.Kernels() == Turned(b.Kernels(), Kernel, call, o)
    requires after.buffers == b.buffers && after.bindings == b.bindings
    ensures Keeps(b, after, Op<B, K, D>.OnKernels(call), o)
  {
  }

  lemma BindingsBooked<B, K, D>(b: Books, after: Books, call: Call<D>, o: Outcome)
    requires Expected(b.Bindings(), Binding, call, o) && after.Bindings() == Turned(b.Bindings(), Binding, call, o)
    requires after.buffers == b.buffers && after.kernels == b.kernels
    ensures Keeps(b, after, Op<B, K, D>.OnBindings(call), o)
  {
  }

  class Resources<B, K, D> {
    const table: Table
    const buffers: Shelf<B>
    const kernels: Shelf<K>
    const bindings: Shelf<D>

    ghost predicate Shaped()
    {
      && buffers.table == table && kernels.table == table && bindings.table == table
      && buffers.kind == Buffer && kernels.kind == Kernel && bindings.kind == Binding
      && buffers as object != kernels && buffers as object != bindings && kernels as object != bindings
      && buffers.arena as object != kernels.arena && buffers.arena as object != bindings.arena
      && kernels.arena as object != bindings.arena
    }

    ghost predicate Valid()
      requires Shaped()
      reads table, table.counter, buffers, kernels, bindings, buffers.arena, kernels.arena, bindings.arena
    {
      buffers.Valid() && kernels.Valid() && bindings.Valid()
    }

    /** What all three kinds are answered from. */
    ghost function Shown(): Books
      reads table, table.counter, buffers, kernels, bindings
    {
      Books(table.counter.next, table.public, buffers.gone, kernels.gone, bindings.gone)
    }

    constructor (counter: HandleCounter)
      ensures Shaped() && Valid() && table.counter == counter && Shown() == Books(counter.next, map[], {}, {}, {})
      ensures fresh(table) && fresh(buffers) && fresh(kernels) && fresh(bindings)
      ensures fresh(buffers.arena) && fresh(kernels.arena) && fresh(bindings.arena)
    {
      var table := new Table(counter);
      var b := new Shelf<B>(table, Buffer);
      var k := new Shelf<K>(table, Kernel);
      var d := new Shelf<D>(table, Binding);
      this.table, buffers, kernels, bindings := table, b, k, d;
    }

    method OnBuffers(call: Call<B>) returns (o: Outcome)
      requires Shaped() && Valid()
      modifies table, table.counter, buffers, buffers.arena
      ensures Valid() && Keeps(old(Shown()), Shown(), Op<B, K, D>.OnBuffers(call), o)
    {
      ghost var b := Shown();
      o := buffers.Do(call);
      BuffersBooked<B, K, D>(b, Shown(), call, o);
      kernels.LinkedElsewhere(b.next, b.standing, Buffer);
      bindings.LinkedElsewhere(b.next, b.standing, Buffer);
    }

    method OnKernels(call: Call<K>) returns (o: Outcome)
      requires Shaped() && Valid()
      modifies table, table.counter, kernels, kernels.arena
      ensures Valid() && Keeps(old(Shown()), Shown(), Op<B, K, D>.OnKernels(call), o)
    {
      ghost var b := Shown();
      o := kernels.Do(call);
      KernelsBooked<B, K, D>(b, Shown(), call, o);
      buffers.LinkedElsewhere(b.next, b.standing, Kernel);
      bindings.LinkedElsewhere(b.next, b.standing, Kernel);
    }

    method OnBindings(call: Call<D>) returns (o: Outcome)
      requires Shaped() && Valid()
      modifies table, table.counter, bindings, bindings.arena
      ensures Valid() && Keeps(old(Shown()), Shown(), Op<B, K, D>.OnBindings(call), o)
    {
      ghost var b := Shown();
      o := bindings.Do(call);
      BindingsBooked<B, K, D>(b, Shown(), call, o);
      buffers.LinkedElsewhere(b.next, b.standing, Binding);
      kernels.LinkedElsewhere(b.next, b.standing, Binding);
    }
  }

  /** Handles drawn by other contexts leave a table valid. */
  twostate lemma DrawnElsewhere<B, K, D>(r: Resources<B, K, D>)
    requires r.Shaped() && old(r.Valid())
    requires unchanged(r.table, r.buffers, r.kernels, r.bindings, r.buffers.arena, r.kernels.arena, r.bindings.arena)
    requires old(r.table.counter.next) <= r.table.counter.next
    ensures r.Valid()
  {
  }

  // ----- any run of calls of any kind -----

  /** The books after the calls so far, by the outcomes alone. */
  function BooksAfter<B, K, D>(ops: seq<Op<B, K, D>>, outcomes: seq<Outcome>): Books
    requires |outcomes| <= |ops|
  {
    if |outcomes| == 0 then Books(1, map[], {}, {}, {})
    else
      var n := |outcomes| - 1;
      Booked(BooksAfter(ops, outcomes[..n]), ops[n], outcomes[n])
  }

  method Apply<B, K, D>(r: Resources<B, K, D>, op: Op<B, K, D>) returns (o: Outcome)
    requires r.Shaped() && r.Valid()
    modifies r.table, r.table.counter, r.buffers, r.kernels, r.bindings, r.buffers.arena, r.kernels.arena, r.bindings.arena
    ensures r.Valid() && Keeps(old(r.Shown()), r.Shown(), op, o)
  {
    match op
    case OnBuffers(call) => o := r.OnBuffers(call);
    case OnKernels(call) => o := r.OnKernels(call);
    case OnBindings(call) => o := r.OnBindings(call);
  }

  /** The outcome at `k` is the one the calls and outcomes before it call for. */
  ghost predicate Right<B, K, D>(ops: seq<Op<B, K, D>>, outcomes: seq<Outcome>, k: nat)
    requires k < |outcomes| <= |ops|
  {
    ExpectedOf(BooksAfter(ops, outcomes[..k]), ops[k], outcomes[k])
  }

  /** Over any run of calls every outcome is right. */
  method Replay<B, K, D>(ops: seq<Op<B, K, D>>) returns (outcomes: seq<Outcome>)
    ensures |outcomes| == |ops|
    ensures forall k :: 0 <= k < |ops| ==> Right(ops, outcomes, k)
  {
    var counter := new HandleCounter();
    var r := new Resources<B, K, D>(counter);
    outcomes := [];
    for k := 0 to |ops|
      invariant fresh(r.table) && fresh(r.table.counter) && fresh(r.buffers) && fresh(r.kernels) && fresh(r.bindings)
      invariant fresh(r.buffers.arena) && fresh(r.kernels.arena) && fresh(r.bindings.arena)
      invariant r.Shaped() && r.Valid() && |outcomes| == k && r.Shown() == BooksAfter(ops, outcomes)
      invariant forall i :: 0 <= i < k ==> Right(ops, outcomes, i)
    {
      var o := Apply(r, ops[k]);
      RightOn(ops, outcomes, o);
      outcomes := outcomes + [o];
    }
  }

  lemma RightOn<B, K, D>(ops: seq<Op<B, K, D>>, outcomes: seq<Outcome>, o: Outcome)
    requires |outcomes| < |ops| && forall i :: 0 <= i < |outcomes| ==> Right(ops, outcomes, i)
    requires ExpectedOf(BooksAfter(ops, outcomes), ops[|outcomes|], o)
    ensures forall i :: 0 <= i <= |outcomes| ==> Right(ops, outcomes + [o], i)
    ensures BooksAfter(ops, outcomes + [o]) == Booked(BooksAfter(ops, outcomes), ops[|outcomes|], o)
  {
    var more := outcomes + [o];
    assert more[..|outcomes|] == outcomes;
    forall i | 0 <= i <= |outcomes| ensures Right(ops, more, i) {
      if i < |outcomes| {
        assert more[..i] == outcomes[..i];
        assert Right(ops, outcomes, i);
      }
    }
  }

  /** No handle is ever issued twice: they are issued in increasing order. */
  lemma {:induction false} NeverReissued<B, K, D>(ops: seq<Op<B, K, D>>, outcomes: seq<Outcome>, j: nat, k: nat)
    requires |outcomes| == |ops| && j < k < |ops| && forall i :: 0 <= i < |ops| ==> Right(ops, outcomes, i)
    requires outcomes[j].Issued? && outcomes[k].Issued?
    ensures outcomes[j].handle < outcomes[k].handle
  {
    assert Right(ops, outcomes, k);
    BeyondAll(ops, outcomes, j, k);
  }

  lemma NextGrows<B, K, D>(b: Books, op: Op<B, K, D>, o: Outcome)
    ensures b.next <= Booked(b, op, o).next
    ensures ExpectedOf(b, op, o) && o.Issued? ==> o.handle < Booked(b, op, o).next
  {
  }

  lemma {:induction false} BeyondAll<B, K, D>(ops: seq<Op<B, K, D>>, outcomes: seq<Outcome>, j: nat, k: nat)
    requires j < k <= |outcomes| <= |ops| && outcomes[j].Issued? && Right(ops, outcomes, j)
    ensures outcomes[j].handle < BooksAfter(ops, outcomes[..k]).next
    decreases k
  {
    var n := k - 1;
    assert outcomes[..k][..n] == outcomes[..n];
    NextGrows(BooksAfter(ops, outcomes[..n]), ops[n], outcomes[n]);
    if j < n {
      BeyondAll(ops, outcomes, j, n);
    }
  }
}
