/** Generational handles: an arena whose public identities cannot alias a reused slot. */
module Arena {
  import opened Wrappers
  import opened Sequences

  datatype Status = Capacity | StaleHandle

  const U32_MAX: nat := 0xFFFF_FFFF
  const SHIFT: nat := 0x1_0000_0000

  /** A raw 64-bit handle. */
  type Handle = h: nat | h < 0x1_0000_0000_0000_0000

  // ----- packing -----

  /** `(generation << 32) | (index + 1)`. */
  function Pack(index: nat, generation: nat): Handle
    requires index < U32_MAX && generation <= U32_MAX
  {
    generation * SHIFT + index + 1
  }

  function Parts(h: Handle): Option<(nat, nat)>
  {
    var index, generation := h % SHIFT, h / SHIFT;
    if index == 0 || generation == 0 then None else Some((index - 1, generation))
  }

  lemma PartsOfPack(index: nat, generation: nat)
    requires index < U32_MAX && 1 <= generation <= U32_MAX
    ensures Parts(Pack(index, generation)) == Some((index, generation))
  {
  }

  lemma PackOfParts(h: Handle)
    requires Parts(h).Some?
    ensures var (index, generation) := Parts(h).value;
            index < U32_MAX && 1 <= generation <= U32_MAX && Pack(index, generation) == h
  {
  }

  // ----- the arena -----

  datatype Slot<+T> = Slot(generation: nat, value: Option<T>)

  /** How many slots are occupied. */
  function Occupied<T>(slots: seq<Slot<T>>): nat
  {
    if |slots| == 0 then 0
    else Occupied(slots[..|slots| - 1]) + if slots[|slots| - 1].value.Some? then 1 else 0
  }

  lemma {:induction false} OccupiedUpdate<T>(slots: seq<Slot<T>>, i: nat, s: Slot<T>)
    requires i < |slots|
    ensures Occupied(slots[i := s]) + (if slots[i].value.Some? then 1 else 0)
         == Occupied(slots) + (if s.value.Some? then 1 else 0)
  {
    var n := |slots| - 1;
    if i == n {
      assert slots[i := s][..n] == slots[..n];
    } else {
      assert slots[i := s][..n] == slots[..n][i := s];
      OccupiedUpdate(slots[..n], i, s);
    }
  }

  /** What a handle unpacks to. */
  type Id = (nat, nat)

  /** The slot is occupied by this generation. */
  predicate Live<T>(slots: seq<Slot<T>>, id: Id)
  {
    id.0 < |slots| && slots[id.0].generation == id.1 && slots[id.0].value.Some?
  }

  /** Slots and generations are in range; the free list is vacant and without repeats; a
      vacant slot outside it has been retired; `len` counts the occupied slots. */
  ghost predicate Formed<T>(slots: seq<Slot<T>>, free: seq<nat>, len: int)
  {
    && |slots| <= U32_MAX
    && (forall i :: 0 <= i < |slots| ==> 1 <= slots[i].generation <= U32_MAX)
    && NoRepeats(free)
    && (forall i :: 0 <= i < |free| ==> free[i] < |slots| && slots[free[i]].value.None?)
    && (forall i :: 0 <= i < |slots| && slots[i].value.None? && i !in free ==> slots[i].generation == U32_MAX)
    && len == Occupied(slots)
  }

  /** An issued identity is live, superseded, or the last of a retired slot. */
  ghost predicate Spent<T>(slots: seq<Slot<T>>, free: seq<nat>, id: Id)
  {
    && id.0 < |slots| && 1 <= id.1 <= slots[id.0].generation
    && (id.0 in free ==> id.1 < slots[id.0].generation)
  }

  /** What has been told the outside: the identity behind every handle ever issued, the last
      handle issued for each slot, and what the live handles name. */
  datatype Ledger<T> = Ledger(ids: map<Handle, Id>, names: seq<Handle>, view: map<Handle, T>)

  /** A live handle is the last of its slot and names its value. */
  ghost predicate Holds<T>(slots: seq<Slot<T>>, g: Ledger<T>, h: Handle)
    requires |g.names| == |slots| && h in g.view
  {
    && h in g.ids && Live(slots, g.ids[h])
    && g.names[g.ids[h].0] == h && g.view[h] == slots[g.ids[h].0].value.value
  }

  /** An occupied slot has a live handle. */
  ghost predicate Held<T>(slots: seq<Slot<T>>, g: Ledger<T>, i: nat)
    requires |g.names| == |slots| && i < |slots|
  {
    g.names[i] in g.view && g.names[i] in g.ids && g.ids[g.names[i]] == (i, slots[i].generation)
  }

  /** A retired slot is known by the handle of its last generation. */
  ghost predicate Retired<T>(slots: seq<Slot<T>>, g: Ledger<T>, i: nat)
    requires |g.names| == |slots| && i < |slots|
  {
    g.names[i] in g.ids && g.ids[g.names[i]] == (i, slots[i].generation)
  }

  ghost predicate Kept<T>(slots: seq<Slot<T>>, free: seq<nat>, g: Ledger<T>)
  {
    && |g.names| == |slots|
    && (forall h {:trigger Parts(h)} :: h in g.ids ==> Parts(h) == Some(g.ids[h]))
    && (forall h :: h in g.ids ==> Spent(slots, free, g.ids[h]))
    && (forall h :: h in g.view ==> Holds(slots, g, h))
    && (forall i :: 0 <= i < |slots| && slots[i].value.Some? ==> Held(slots, g, i))
    && (forall i :: 0 <= i < |slots| && slots[i].value.None? && i !in free ==> Retired(slots, g, i))
  }

  /** Two handles that unpack alike are the same. */
  lemma NamesApart(g: Handle, h: Handle)
    requires Parts(g).Some? && Parts(g) == Parts(h)
    ensures g == h
  {
    PackOfParts(g);
    PackOfParts(h);
  }

  // ----- filling a slot taken off the free list -----

  lemma FillsFormed<T>(slots: seq<Slot<T>>, free: seq<nat>, len: int, index: nat, value: T)
    requires Formed(slots, free + [index], len)
    ensures index < |slots| && slots[index].value.None?
    ensures Formed(slots[index := Slot(slots[index].generation, Some(value))], free, len + 1)
    ensures index !in free
  {
    var all := free + [index];
    assert all[|free|] == index;
    var after := slots[index := Slot(slots[index].generation, Some(value))];
    OccupiedUpdate(slots, index, after[index]);
    forall i | 0 <= i < |free| ensures free[i] < |slots| && after[free[i]].value.None? {
      assert all[i] == free[i] && all[i] != all[|free|];
    }
    assert NoRepeats(free) by {
      forall i, j | 0 <= i < j < |free| ensures free[i] != free[j] { assert all[i] != all[j]; }
    }
    forall i | 0 <= i < |after| && after[i].value.None? && i !in free ensures after[i].generation == U32_MAX {
      assert i !in all;
    }
  }

  /** No issued handle has the identity of a free slot, so filling it tells a new one. */
  lemma FillsKept<T>(slots: seq<Slot<T>>, free: seq<nat>, len: int, index: nat, value: T, g: Ledger<T>, h: Handle)
    requires Formed(slots, free + [index], len) && Kept(slots, free + [index], g)
    requires index < |slots| && Parts(h) == Some((index, slots[index].generation))
    ensures h !in g.ids
    ensures Kept(slots[index := Slot(slots[index].generation, Some(value))], free,
                 Ledger(g.ids[h := Parts(h).value], g.names[index := h], g.view[h := value]))
  {
    FillsFormed(slots, free, len, index, value);
    var all := free + [index];
    assert index in all;
    var after := slots[index := Slot(slots[index].generation, Some(value))];
    var told := Ledger(g.ids[h := Parts(h).value], g.names[index := h], g.view[h := value]);
    forall x | x in told.ids ensures Spent(after, free, told.ids[x]) {
      assert x in g.ids ==> Spent(slots, all, g.ids[x]);
    }
    forall x | x in told.view ensures Holds(after, told, x) {
      assert x in g.view ==> Holds(slots, g, x);
    }
    forall i | 0 <= i < |after| && after[i].value.Some? ensures Held(after, told, i) {
      assert i != index ==> Held(slots, g, i);
    }
    forall i | 0 <= i < |after| && after[i].value.None? && i !in free ensures Retired(after, told, i) {
      assert i !in all && Retired(slots, g, i);
    }
  }

  lemma AppendsFormed<T>(slots: seq<Slot<T>>, len: int)
    requires Formed(slots, [], len) && |slots| < U32_MAX
    ensures Formed(slots + [Slot(1, None)], [|slots|], len)
  {
    assert (slots + [Slot(1, None)])[..|slots|] == slots;
  }

  /** A fresh slot of generation 1, as if it had been on the free list. */
  lemma AppendsKept<T>(slots: seq<Slot<T>>, g: Ledger<T>)
    requires Kept(slots, [], g)
    ensures Kept(slots + [Slot(1, None)], [|slots|], g.(names := g.names + [0]))
  {
    var after, told := slots + [Slot(1, None)], g.(names := g.names + [0]);
    forall x | x in g.ids ensures Spent(after, [|slots|], g.ids[x]) {
      assert Spent(slots, [], g.ids[x]);
    }
    forall x | x in g.view ensures Holds(after, told, x) {
      assert Holds(slots, g, x);
    }
    forall i | 0 <= i < |after| && after[i].value.Some? ensures Held(after, told, i) {
      assert Held(slots, g, i);
    }
    forall i | 0 <= i < |after| && after[i].value.None? && i !in [|slots|] ensures Retired(after, told, i) {
      assert Retired(slots, g, i);
    }
  }

  // ----- overwriting and emptying an occupied slot -----

  lemma ReplacesFormed<T>(slots: seq<Slot<T>>, free: seq<nat>, len: int, index: nat, value: T)
    requires Formed(slots, free, len) && index < |slots| && slots[index].value.Some?
    ensures Formed(slots[index := Slot(slots[index].generation, Some(value))], free, len)
  {
    OccupiedUpdate(slots, index, Slot(slots[index].generation, Some(value)));
  }

  lemma ReplacesKept<T>(slots: seq<Slot<T>>, free: seq<nat>, index: nat, value: T, g: Ledger<T>, h: Handle)
    requires Kept(slots, free, g) && h in g.view && h in g.ids && g.ids[h].0 == index
    requires index < |slots| && slots[index].value.Some?
    ensures Kept(slots[index := Slot(slots[index].generation, Some(value))], free, g.(view := g.view[h := value]))
  {
    var after, told := slots[index := Slot(slots[index].generation, Some(value))], g.(view := g.view[h := value]);
    assert Holds(slots, g, h);
    forall x | x in g.ids ensures Spent(after, free, g.ids[x]) {
      assert Spent(slots, free, g.ids[x]);
    }
    forall x | x in told.view ensures Holds(after, told, x) {
      assert Holds(slots, g, x);
    }
    forall i | 0 <= i < |after| && after[i].value.Some? ensures Held(after, told, i) {
      assert Held(slots, g, i);
    }
    forall i | 0 <= i < |after| && after[i].value.None? && i !in free ensures Retired(after, told, i) {
      assert Retired(slots, g, i);
    }
  }

  /** What an emptied slot becomes: vacant in its next generation, or retired in its last. */
  function Vacated<T>(s: Slot<T>): Slot<T>
  {
    Slot(if s.generation == U32_MAX then s.generation else s.generation + 1, None)
  }

  function Freed<T>(free: seq<nat>, slots: seq<Slot<T>>, index: nat): seq<nat>
    requires index < |slots|
  {
    if slots[index].generation == U32_MAX then free else free + [index]
  }

  lemma EmptiesFormed<T>(slots: seq<Slot<T>>, free: seq<nat>, len: int, index: nat)
    requires Formed(slots, free, len) && index < |slots| && slots[index].value.Some?
    ensures Formed(slots[index := Vacated(slots[index])], Freed(free, slots, index), len - 1)
  {
    var after, list := slots[index := Vacated(slots[index])], Freed(free, slots, index);
    OccupiedUpdate(slots, index, after[index]);
    assert index !in free;
    forall i | 0 <= i < |after| && after[i].value.None? && i !in list ensures after[i].generation == U32_MAX {
      if i != index {
        assert i !in free;
      } else {
        assert list == free;
      }
    }
  }

  /** Emptying an occupied slot takes its handle out of the view and nothing else. */
  lemma EmptiesKept<T>(slots: seq<Slot<T>>, free: seq<nat>, len: int, index: nat, g: Ledger<T>, h: Handle)
    requires Formed(slots, free, len) && Kept(slots, free, g) && h in g.view && h in g.ids && g.ids[h].0 == index
    requires index < |slots| && slots[index].value.Some?
    ensures Kept(slots[index := Vacated(slots[index])], Freed(free, slots, index), g.(view := g.view - {h}))
  {
    var after, list, told := slots[index := Vacated(slots[index])], Freed(free, slots, index), g.(view := g.view - {h});
    assert index !in free;
    assert Holds(slots, g, h);
    forall x | x in g.ids ensures Spent(after, list, g.ids[x]) {
      assert Spent(slots, free, g.ids[x]);
    }
    forall x | x in told.view ensures Holds(after, told, x) {
      assert Holds(slots, g, x);
    }
    forall i | 0 <= i < |after| && after[i].value.Some? ensures Held(after, told, i) {
      assert Held(slots, g, i);
    }
    forall i | 0 <= i < |after| && after[i].value.None? && i !in list ensures Retired(after, told, i) {
      assert i != index ==> Retired(slots, g, i);
    }
  }

  // ----- when every slot is taken or retired -----

  function Generation(h: Handle): nat { h / SHIFT }

  /** The handles after which their slot cannot be used again. */
  ghost function LastOnes(handles: set<Handle>): set<Handle>
  {
    set h | h in handles && Generation(h) == U32_MAX
  }

  /** As many handles are live, or gone and the last of their slot, as there are slots. */
  ghost predicate Full(live: set<Handle>, gone: set<Handle>) { |live| + |LastOnes(gone)| == U32_MAX }

  /** No slot is left, by what has been told. */
  ghost predicate Exhausted<T>(g: Ledger<T>) { Full(g.view.Keys, g.ids.Keys - g.view.Keys) }

  ghost function Indices(n: nat): set<nat> { if n == 0 then {} else Indices(n - 1) + {n - 1} }

  lemma {:induction false} IndicesCount(n: nat)
    ensures |Indices(n)| == n && forall i :: i in Indices(n) <==> 0 <= i < n
  {
    if n > 0 {
      IndicesCount(n - 1);
    }
  }

  ghost function Elements(s: seq<nat>): set<nat> { set x | x in s }

  lemma {:induction false} ElementsCount(s: seq<nat>)
    requires NoRepeats(s)
    ensures |Elements(s)| == |s|
  {
    if |s| > 0 {
      var n := |s| - 1;
      ElementsCount(s[..n]);
      assert Elements(s) == Elements(s[..n]) + {s[n]};
      assert s[n] !in s[..n];
    }
  }

  ghost function NamesOf(indices: set<nat>, names: seq<Handle>): set<Handle>
  {
    set i | i in indices && i < |names| :: names[i]
  }

  lemma {:induction false} NamesCount(indices: set<nat>, names: seq<Handle>)
    requires forall i :: i in indices ==> i < |names|
    requires forall i, j :: i in indices && j in indices && names[i] == names[j] ==> i == j
    ensures |NamesOf(indices, names)| == |indices|
    decreases |indices|
  {
    if indices != {} {
      var i :| i in indices;
      var rest := indices - {i};
      NamesCount(rest, names);
      assert NamesOf(indices, names) == NamesOf(rest, names) + {names[i]};
    }
  }

  ghost function OccupiedSlots<T>(slots: seq<Slot<T>>): set<nat>
  {
    set i: nat | i < |slots| && slots[i].value.Some?
  }

  ghost function RetiredSlots<T>(slots: seq<Slot<T>>, free: seq<nat>): set<nat>
  {
    set i: nat | i < |slots| && slots[i].value.None? && i !in free
  }

  /** Every slot is occupied, free or retired. */
  lemma SlotsSplit<T>(slots: seq<Slot<T>>, free: seq<nat>, len: int)
    requires Formed(slots, free, len)
    ensures |slots| == |OccupiedSlots(slots)| + |free| + |RetiredSlots(slots, free)|
  {
    IndicesCount(|slots|);
    ElementsCount(free);
    var occupied, vacant, retired := OccupiedSlots(slots), Elements(free), RetiredSlots(slots, free);
    assert Indices(|slots|) == occupied + vacant + retired;
    assert occupied !! vacant && occupied + vacant !! retired;
  }

  lemma LiveNames<T>(slots: seq<Slot<T>>, free: seq<nat>, g: Ledger<T>)
    requires Kept(slots, free, g)
    ensures |g.view| == |OccupiedSlots(slots)|
  {
    var occupied := OccupiedSlots(slots);
    forall i | i in occupied ensures Held(slots, g, i) {
    }
    NamesCount(occupied, g.names);
    forall h | h in g.view ensures h in NamesOf(occupied, g.names) {
      assert Holds(slots, g, h);
    }
    assert g.view.Keys == NamesOf(occupied, g.names);
  }

  /** A handle of the last generation that is no longer live names a retired slot. */
  lemma LastNamesRetired<T>(slots: seq<Slot<T>>, free: seq<nat>, len: int, g: Ledger<T>, h: Handle)
    requires Formed(slots, free, len) && Kept(slots, free, g)
    requires h in g.ids && h !in g.view && Generation(h) == U32_MAX
    ensures g.ids[h].0 in RetiredSlots(slots, free) && g.names[g.ids[h].0] == h
  {
    var i := g.ids[h].0;
    assert Parts(h) == Some(g.ids[h]);
    assert Spent(slots, free, g.ids[h]);
    var last := g.names[i];
    assert (slots[i].value.Some? ==> Held(slots, g, i)) && (slots[i].value.None? ==> Retired(slots, g, i));
    assert Parts(last) == Some(g.ids[last]);
    NamesApart(last, h);
  }

  lemma RetiredNames<T>(slots: seq<Slot<T>>, free: seq<nat>, len: int, g: Ledger<T>)
    requires Formed(slots, free, len) && Kept(slots, free, g)
    ensures |LastOnes(g.ids.Keys - g.view.Keys)| == |RetiredSlots(slots, free)|
  {
    var retired, last := RetiredSlots(slots, free), LastOnes(g.ids.Keys - g.view.Keys);
    forall i | i in retired ensures Retired(slots, g, i) && g.names[i] in last {
      assert Retired(slots, g, i);
      var h := g.names[i];
      assert Parts(h) == Some(g.ids[h]);
      assert h in g.view ==> Holds(slots, g, h);
    }
    NamesCount(retired, g.names);
    forall h | h in last ensures h in NamesOf(retired, g.names) {
      LastNamesRetired(slots, free, len, g, h);
    }
    assert last == NamesOf(retired, g.names);
  }

  /** There is no slot left exactly when the handles told so far say so. */
  lemma FullIff<T>(slots: seq<Slot<T>>, free: seq<nat>, len: int, g: Ledger<T>)
    requires Formed(slots, free, len) && Kept(slots, free, g)
    ensures (|free| == 0 && |slots| == U32_MAX) == Exhausted(g)
  {
    SlotsSplit(slots, free, len);
    LiveNames(slots, free, g);
    RetiredNames(slots, free, len, g);
  }

  class Arena<T> {
    var slots: seq<Slot<T>>
    var free: seq<nat>
    var len: int
    ghost var told: Ledger<T>

    ghost predicate Valid()
      reads this
    {
      Formed(slots, free, len) && Kept(slots, free, told)
    }

    constructor ()
      ensures Valid() && told.view == map[] && told.ids == map[]
    {
      slots, free, len, told := [], [], 0, Ledger(map[], [], map[]);
    }

    /** A handle no insert has returned before, or a refusal when every slot is taken or
        retired. */
    method Insert(value: T) returns (r: Result<Handle, Status>)
      requires Valid()
      modifies this
      ensures Valid()
      ensures r.Err? == Exhausted(old(told))
      ensures r.Err? ==> r.error == Capacity && told == old(told) && len == old(len)
      ensures r.Ok? ==>
                && r.value !in old(told).ids && told.ids.Keys == old(told).ids.Keys + {r.value}
                && told.view == old(told).view[r.value := value]
    {
      FullIff(slots, free, len, told);
      if |free| == 0 && |slots| == U32_MAX {
        return Err(Capacity);
      }
      var index := |slots|;
      if |free| > 0 {
        assert free[..|free| - 1] + [free[|free| - 1]] == free;
        index, free := free[|free| - 1], free[..|free| - 1];
      } else {
        AppendsFormed(slots, len);
        AppendsKept(slots, told);
        assert free + [index] == [index];
        slots, told := slots + [Slot(1, None)], told.(names := told.names + [0]);
      }
      var h := Fill(index, value);
      return Ok(h);
    }

    /** The second half of an insert: puts the value in the slot taken off the free list. */
    method Fill(index: nat, value: T) returns (h: Handle)
      requires Formed(slots, free + [index], len) && Kept(slots, free + [index], told)
      modifies this`slots, this`len, this`told
      ensures Valid()
      ensures h !in old(told).ids && told.ids.Keys == old(told).ids.Keys + {h}
      ensures told.view == old(told).view[h := value]
    {
      FillsFormed(slots, free, len, index, value);
      var generation := slots[index].generation;
      PartsOfPack(index, generation);
      h := Pack(index, generation);
      FillsKept(slots, free, len, index, value, told, h);
      slots := slots[index := Slot(generation, Some(value))];
      len := len + 1;
      told := Ledger(told.ids[h := (index, generation)], told.names[index := h], told.view[h := value]);
    }

    /** The occupied slot the handle names, or none. */
    method Find(h: Handle) returns (found: Option<nat>)
      requires Valid()
      ensures found.Some? <==> h in told.view
      ensures found.Some? ==>
                && h in told.ids && found.value == told.ids[h].0 && Live(slots, told.ids[h])
                && told.view[h] == slots[found.value].value.value
    {
      assert h in told.view ==> Holds(slots, told, h);
      var parts := Parts(h);
      if parts.None? {
        return None;
      }
      var (index, generation) := parts.value;
      if index >= |slots| || slots[index].generation != generation || slots[index].value.None? {
        return None;
      }
      assert Held(slots, told, index);
      NamesApart(h, told.names[index]);
      return Some(index);
    }

    /** Any 64-bit value is answered as the map answers it. */
    method Get(h: Handle) returns (r: Result<T, Status>)
      requires Valid()
      ensures r == if h in told.view then Ok(told.view[h]) else Err(StaleHandle)
    {
      var index := Find(h);
      return if index.None? then Err(StaleHandle) else Ok(slots[index.value].value.value);
    }

    /** An assignment through the reference `get_mut` lends out. */
    method Put(h: Handle, value: T) returns (r: Result<(), Status>)
      requires Valid()
      modifies this
      ensures Valid() && told.ids == old(told).ids && len == old(len)
      ensures r == if h in old(told).view then Ok(()) else Err(StaleHandle)
      ensures told.view == if r.Ok? then old(told).view[h := value] else old(told).view
    {
      var index := Find(h);
      if index.None? {
        return Err(StaleHandle);
      }
      ReplacesFormed(slots, free, len, index.value, value);
      ReplacesKept(slots, free, index.value, value, told, h);
      slots := slots[index.value := Slot(slots[index.value].generation, Some(value))];
      told := told.(view := told.view[h := value]);
      return Ok(());
    }

    /** Takes the value out; the handle stays issued, so it can never be live again. */
    method Remove(h: Handle) returns (r: Result<T, Status>)
      requires Valid()
      modifies this
      ensures Valid() && told.ids == old(told).ids
      ensures r == if h in old(told).view then Ok(old(told).view[h]) else Err(StaleHandle)
      ensures told.view == if r.Ok? then old(told).view - {h} else old(told).view
    {
      var found := Find(h);
      if found.None? {
        return Err(StaleHandle);
      }
      var index := found.value;
      EmptiesFormed(slots, free, len, index);
      EmptiesKept(slots, free, len, index, told, h);
      var value := slots[index].value.value;
      free := Freed(free, slots, index);
      slots := slots[index := Vacated(slots[index])];
      len := len - 1;
      told := told.(view := told.view - {h});
      return Ok(value);
    }
  }

  /** Live handles have been issued. */
  lemma ViewIssued<T>(arena: Arena<T>)
    requires arena.Valid()
    ensures arena.told.view.Keys <= arena.told.ids.Keys
  {
    forall h | h in arena.told.view ensures h in arena.told.ids {
      assert Holds(arena.slots, arena.told, h);
    }
  }

  /** `len` is the number of live handles. */
  lemma LenCounts<T>(arena: Arena<T>)
    requires arena.Valid()
    ensures |arena.told.view| == arena.len
  {
    OccupiedCount(arena.slots);
    LiveNames(arena.slots, arena.free, arena.told);
  }

  lemma {:induction false} OccupiedCount<T>(slots: seq<Slot<T>>)
    ensures |OccupiedSlots(slots)| == Occupied(slots)
  {
    if |slots| > 0 {
      var n := |slots| - 1;
      OccupiedCount(slots[..n]);
      var fewer := OccupiedSlots(slots[..n]);
      assert OccupiedSlots(slots) == if slots[n].value.Some? then fewer + {n} else fewer;
    }
  }

  // ----- any run of calls -----

  datatype Op<T> = InsertOp(value: T) | GetOp(handle: Handle) | RemoveOp(handle: Handle)

  /** What a call answered: an insert a handle, the others the value it names. */
  datatype Answer<T> = Issues(handle: Result<Handle, Status>) | Finds(value: Result<T, Status>)

  /** The call at `j` was an insert that answered `h`. */
  predicate Inserts<T>(ops: seq<Op<T>>, answers: seq<Answer<T>>, j: nat, h: Handle)
    requires j < |answers| <= |ops|
  {
    ops[j].InsertOp? && answers[j].Issues? && answers[j].handle == Ok(h)
  }

  /** The call at `j` was a remove that took `h` out. */
  predicate Removes<T>(ops: seq<Op<T>>, answers: seq<Answer<T>>, j: nat, h: Handle)
    requires j < |answers| <= |ops|
  {
    ops[j] == RemoveOp(h) && answers[j].Finds? && answers[j].value.Ok?
  }

  ghost predicate InsertedBefore<T>(ops: seq<Op<T>>, answers: seq<Answer<T>>, k: nat, h: Handle)
    requires k <= |answers| <= |ops|
  {
    exists j :: 0 <= j < k && Inserts(ops, answers, j, h)
  }

  ghost predicate RemovedBefore<T>(ops: seq<Op<T>>, answers: seq<Answer<T>>, k: nat, h: Handle)
    requires k <= |answers| <= |ops|
  {
    exists j :: 0 <= j < k && Removes(ops, answers, j, h)
  }

  /** A lookup finds `h` exactly when it was inserted before and not yet removed, and then
      finds the value it was inserted with. */
  ghost predicate FindsRight<T>(ops: seq<Op<T>>, answers: seq<Answer<T>>, k: nat, h: Handle)
    requires k < |answers| <= |ops|
  {
    && answers[k].Finds?
    && (answers[k].value.Ok? <==> InsertedBefore(ops, answers, k, h) && !RemovedBefore(ops, answers, k, h))
    && (answers[k].value.Err? ==> answers[k].value.error == StaleHandle)
    && (answers[k].value.Ok? ==>
          forall j :: 0 <= j < k && Inserts(ops, answers, j, h) ==> answers[k].value.value == ops[j].value)
  }

  /** The handles inserted before `k` and not removed before it. */
  ghost function LiveBefore<T>(ops: seq<Op<T>>, answers: seq<Answer<T>>, k: nat): set<Handle>
    requires k <= |answers| <= |ops|
  {
    set j | 0 <= j < k && ops[j].InsertOp? && answers[j].Issues? && answers[j].handle.Ok?
            && !RemovedBefore(ops, answers, k, answers[j].handle.value) :: answers[j].handle.value
  }

  /** The handles removed before `k`. */
  ghost function GoneBefore<T>(ops: seq<Op<T>>, answers: seq<Answer<T>>, k: nat): set<Handle>
    requires k <= |answers| <= |ops|
  {
    set j | 0 <= j < k && ops[j].RemoveOp? && answers[j].Finds? && answers[j].value.Ok? :: ops[j].handle
  }

  /** An insert answers a handle that none before it answered; it refuses exactly when the
      live handles, with the removed ones of a last generation, take up every slot. */
  ghost predicate IssuesRight<T>(ops: seq<Op<T>>, answers: seq<Answer<T>>, k: nat)
    requires k < |answers| <= |ops|
  {
    && answers[k].Issues?
    && (answers[k].handle.Ok? ==> !InsertedBefore(ops, answers, k, answers[k].handle.value))
    && (answers[k].handle.Err? == Full(LiveBefore(ops, answers, k), GoneBefore(ops, answers, k)))
    && (answers[k].handle.Err? ==> answers[k].handle.error == Capacity)
  }

  ghost predicate AnsweredRight<T>(ops: seq<Op<T>>, answers: seq<Answer<T>>, k: nat)
    requires k < |answers| <= |ops|
  {
    if ops[k].InsertOp? then IssuesRight(ops, answers, k) else FindsRight(ops, answers, k, ops[k].handle)
  }

  // ----- the same, told call by call -----

  /** Every handle inserted so far with its value, and the handles removed so far. */
  datatype Tally<T> = Tally(inserted: map<Handle, T>, removed: set<Handle>)

  /** The live handles, with the removed ones of a last generation, take up every slot. */
  ghost predicate NoRoom<T>(t: Tally<T>) { Full(t.inserted.Keys - t.removed, t.removed) }

  function Counted<T>(t: Tally<T>, op: Op<T>, a: Answer<T>): Tally<T>
  {
    if op.InsertOp? && a.Issues? && a.handle.Ok? then t.(inserted := t.inserted[a.handle.value := op.value])
    else if op.RemoveOp? && a.Finds? && a.value.Ok? then t.(removed := t.removed + {op.handle})
    else t
  }

  function Tallied<T>(ops: seq<Op<T>>, answers: seq<Answer<T>>): Tally<T>
    requires |answers| <= |ops|
  {
    if |answers| == 0 then Tally(map[], {})
    else
      var n := |answers| - 1;
      Counted(Tallied(ops, answers[..n]), ops[n], answers[n])
  }

  /** The answer a call must give after the calls tallied. */
  ghost predicate Follows<T>(t: Tally<T>, op: Op<T>, a: Answer<T>)
  {
    if op.InsertOp? then
      && a.Issues?
      && (a.handle.Ok? ==> a.handle.value !in t.inserted)
      && (a.handle.Err? == NoRoom(t))
      && (a.handle.Err? ==> a.handle.error == Capacity)
    else
      && a.Finds?
      && (a.value.Ok? <==> op.handle in t.inserted && op.handle !in t.removed)
      && (a.value.Ok? ==> a.value.value == t.inserted[op.handle])
      && (a.value.Err? ==> a.value.error == StaleHandle)
  }

  /** The arena holds what was inserted and not removed. */
  ghost predicate Holding<T>(g: Ledger<T>, t: Tally<T>)
  {
    g.ids.Keys == t.inserted.Keys && g.view == t.inserted - t.removed && t.removed <= t.inserted.Keys
  }

  lemma HoldingRoom<T>(g: Ledger<T>, t: Tally<T>)
    requires Holding(g, t)
    ensures Exhausted(g) == NoRoom(t)
  {
    assert g.view.Keys == t.inserted.Keys - t.removed && g.ids.Keys - g.view.Keys == t.removed;
  }

  lemma HoldingInsert<T>(g: Ledger<T>, after: Ledger<T>, t: Tally<T>, h: Handle, value: T)
    requires Holding(g, t) && h !in g.ids
    requires after.ids.Keys == g.ids.Keys + {h} && after.view == g.view[h := value]
    ensures h !in t.inserted && Holding(after, t.(inserted := t.inserted[h := value]))
  {
    PutApart(t.inserted, t.removed, h, value);
    assert t.inserted[h := value].Keys == t.inserted.Keys + {h};
  }

  lemma HoldingRemove<T>(g: Ledger<T>, after: Ledger<T>, t: Tally<T>, h: Handle)
    requires Holding(g, t) && h in g.view
    requires after.ids == g.ids && after.view == g.view - {h}
    ensures h in t.inserted && h !in t.removed && Holding(after, t.(removed := t.removed + {h}))
  {
    DropBoth(t.inserted, t.removed, h);
  }

  /** The call has been answered as it must be, and the arena holds what it then should. */
  ghost predicate Answered<T>(g: Ledger<T>, t: Tally<T>, op: Op<T>, a: Answer<T>)
  {
    Follows(t, op, a) && Holding(g, Counted(t, op, a))
  }

  lemma InsertAnswered<T>(g: Ledger<T>, after: Ledger<T>, t: Tally<T>, value: T, h: Handle)
    requires Holding(g, t) && h !in g.ids && !NoRoom(t)
    requires after.ids.Keys == g.ids.Keys + {h} && after.view == g.view[h := value]
    ensures Answered(after, t, InsertOp(value), Issues(Ok(h)))
  {
    HoldingInsert(g, after, t, h, value);
    assert Counted(t, InsertOp(value), Issues(Ok(h))) == t.(inserted := t.inserted[h := value]);
  }

  lemma InsertRefused<T>(g: Ledger<T>, t: Tally<T>, value: T)
    requires Holding(g, t) && NoRoom(t)
    ensures Answered(g, t, InsertOp(value), Issues(Err(Capacity)))
  {
  }

  method CallInsert<T>(arena: Arena<T>, value: T, ghost t: Tally<T>) returns (a: Answer<T>)
    requires arena.Valid() && Holding(arena.told, t)
    modifies arena
    ensures arena.Valid() && Answered(arena.told, t, InsertOp(value), a)
  {
    ghost var g := arena.told;
    HoldingRoom(g, t);
    var r := arena.Insert(value);
    if r.Ok? {
      InsertAnswered(g, arena.told, t, value, r.value);
      a := Issues(Ok(r.value));
    } else {
      InsertRefused(g, t, value);
      a := Issues(Err(Capacity));
    }
  }

  method CallGet<T>(arena: Arena<T>, h: Handle, ghost t: Tally<T>) returns (a: Answer<T>)
    requires arena.Valid() && Holding(arena.told, t)
    ensures Answered(arena.told, t, GetOp(h), a)
  {
    var r := arena.Get(h);
    a := Finds(r);
  }

  method CallRemove<T>(arena: Arena<T>, h: Handle, ghost t: Tally<T>) returns (a: Answer<T>)
    requires arena.Valid() && Holding(arena.told, t)
    modifies arena
    ensures arena.Valid() && Answered(arena.told, t, RemoveOp(h), a)
  {
    ghost var g := arena.told;
    var r := arena.Remove(h);
    a := Finds(r);
    if r.Ok? {
      HoldingRemove(g, arena.told, t, h);
    }
  }

  /** One call of a run. */
  method Call<T>(arena: Arena<T>, op: Op<T>, ghost t: Tally<T>) returns (a: Answer<T>)
    requires arena.Valid() && Holding(arena.told, t)
    modifies arena
    ensures arena.Valid() && Answered(arena.told, t, op, a)
  {
    match op {
      case InsertOp(value) => a := CallInsert(arena, value, t);
      case GetOp(h) => a := CallGet(arena, h, t);
      case RemoveOp(h) => a := CallRemove(arena, h, t);
    }
  }

  lemma PutApart<T>(m: map<Handle, T>, gone: set<Handle>, h: Handle, value: T)
    requires h !in gone
    ensures m[h := value] - gone == (m - gone)[h := value]
  {
  }

  lemma DropBoth<T>(m: map<Handle, T>, gone: set<Handle>, h: Handle)
    ensures m - (gone + {h}) == (m - gone) - {h}
  {
  }

  ghost predicate AllFollow<T>(ops: seq<Op<T>>, answers: seq<Answer<T>>)
    requires |answers| <= |ops|
  {
    forall i :: 0 <= i < |answers| ==> Follows(Tallied(ops, answers[..i]), ops[i], answers[i])
  }

  lemma FollowOn<T>(ops: seq<Op<T>>, answers: seq<Answer<T>>, a: Answer<T>)
    requires |answers| < |ops| && AllFollow(ops, answers) && Follows(Tallied(ops, answers), ops[|answers|], a)
    ensures AllFollow(ops, answers + [a])
    ensures Tallied(ops, answers + [a]) == Counted(Tallied(ops, answers), ops[|answers|], a)
  {
    var more := answers + [a];
    assert more[..|answers|] == answers;
    forall i | 0 <= i < |more| ensures Follows(Tallied(ops, more[..i]), ops[i], more[i]) {
      assert i < |answers| ==> more[..i] == answers[..i];
    }
  }

  lemma BeforeGrows<T>(ops: seq<Op<T>>, answers: seq<Answer<T>>, n: nat, h: Handle)
    requires n < |answers| <= |ops|
    ensures InsertedBefore(ops, answers, n + 1, h) <==> InsertedBefore(ops, answers, n, h) || Inserts(ops, answers, n, h)
    ensures RemovedBefore(ops, answers, n + 1, h) <==> RemovedBefore(ops, answers, n, h) || Removes(ops, answers, n, h)
  {
  }

  /** The two tellings agree on one handle after `k` calls. */
  ghost predicate Agree<T>(t: Tally<T>, ops: seq<Op<T>>, answers: seq<Answer<T>>, k: nat, h: Handle)
    requires k <= |answers| <= |ops|
  {
    && (h in t.inserted <==> InsertedBefore(ops, answers, k, h))
    && (h in t.removed <==> RemovedBefore(ops, answers, k, h))
    && forall j :: 0 <= j < k && Inserts(ops, answers, j, h) ==> h in t.inserted && t.inserted[h] == ops[j].value
  }

  lemma AgreeOn<T>(t: Tally<T>, ops: seq<Op<T>>, answers: seq<Answer<T>>, n: nat, h: Handle)
    requires n < |answers| <= |ops| && Agree(t, ops, answers, n, h) && Follows(t, ops[n], answers[n])
    ensures Agree(Counted(t, ops[n], answers[n]), ops, answers, n + 1, h)
  {
    BeforeGrows(ops, answers, n, h);
  }

  /** What the two tellings call inserted and removed is the same. */
  lemma {:induction false} TellingsAgree<T>(ops: seq<Op<T>>, answers: seq<Answer<T>>, k: nat, h: Handle)
    requires k <= |answers| <= |ops| && AllFollow(ops, answers)
    ensures Agree(Tallied(ops, answers[..k]), ops, answers, k, h)
    decreases k
  {
    if k > 0 {
      var n := k - 1;
      TellingsAgree(ops, answers, n, h);
      var t := Tallied(ops, answers[..n]);
      assert answers[..k][..n] == answers[..n];
      assert Follows(t, ops[n], answers[n]);
      AgreeOn(t, ops, answers, n, h);
    }
  }

  /** So they agree on what is live and what is gone. */
  lemma SetsAgree<T>(ops: seq<Op<T>>, answers: seq<Answer<T>>, k: nat)
    requires k <= |answers| <= |ops| && AllFollow(ops, answers)
    ensures var t := Tallied(ops, answers[..k]);
            && LiveBefore(ops, answers, k) == t.inserted.Keys - t.removed
            && GoneBefore(ops, answers, k) == t.removed
  {
    var t := Tallied(ops, answers[..k]);
    var live, gone := LiveBefore(ops, answers, k), GoneBefore(ops, answers, k);
    forall h: Handle ensures (h in live <==> h in t.inserted && h !in t.removed) && (h in gone <==> h in t.removed) {
      TellingsAgree(ops, answers, k, h);
      LiveIff(ops, answers, k, h);
    }
  }

  lemma LiveIff<T>(ops: seq<Op<T>>, answers: seq<Answer<T>>, k: nat, h: Handle)
    requires k <= |answers| <= |ops|
    ensures h in LiveBefore(ops, answers, k) <==> InsertedBefore(ops, answers, k, h) && !RemovedBefore(ops, answers, k, h)
    ensures h in GoneBefore(ops, answers, k) <==> RemovedBefore(ops, answers, k, h)
  {
    if InsertedBefore(ops, answers, k, h) {
      var j :| 0 <= j < k && Inserts(ops, answers, j, h);
      assert answers[j].handle.value == h;
    }
    if h in LiveBefore(ops, answers, k) {
      var j :| 0 <= j < k && ops[j].InsertOp? && answers[j].Issues? && answers[j].handle.Ok? && answers[j].handle.value == h;
      assert Inserts(ops, answers, j, h);
    }
    if RemovedBefore(ops, answers, k, h) {
      var j :| 0 <= j < k && Removes(ops, answers, j, h);
      assert ops[j].handle == h;
    }
    if h in GoneBefore(ops, answers, k) {
      var j :| 0 <= j < k && ops[j].RemoveOp? && answers[j].Finds? && answers[j].value.Ok? && ops[j].handle == h;
      assert Removes(ops, answers, j, h);
    }
  }

  lemma FollowsRight<T>(ops: seq<Op<T>>, answers: seq<Answer<T>>, k: nat)
    requires k < |answers| <= |ops| && AllFollow(ops, answers)
    ensures AnsweredRight(ops, answers, k)
  {
    assert Follows(Tallied(ops, answers[..k]), ops[k], answers[k]);
    SetsAgree(ops, answers, k);
    if !ops[k].InsertOp? {
      TellingsAgree(ops, answers, k, ops[k].handle);
    } else if answers[k].handle.Ok? {
      TellingsAgree(ops, answers, k, answers[k].handle.value);
    }
  }

  /** Over any run of calls every answer is the one the calls before it call for. */
  method Replay<T>(ops: seq<Op<T>>) returns (answers: seq<Answer<T>>)
    ensures |answers| == |ops|
    ensures forall k :: 0 <= k < |ops| ==> AnsweredRight(ops, answers, k)
  {
    var arena := new Arena<T>();
    answers := [];
    for k := 0 to |ops|
      invariant fresh(arena) && arena.Valid() && |answers| == k
      invariant Holding(arena.told, Tallied(ops, answers)) && AllFollow(ops, answers)
    {
      var a := Call(arena, ops[k], Tallied(ops, answers));
      FollowOn(ops, answers, a);
      answers := answers + [a];
    }
    forall k | 0 <= k < |ops| ensures AnsweredRight(ops, answers, k) {
      FollowsRight(ops, answers, k);
    }
  }

  /** In such a run no two inserts answer the same handle, and a handle that a remove has
      taken out is stale to every later call and never issued again. */
  lemma RemovedForEver<T>(ops: seq<Op<T>>, answers: seq<Answer<T>>, j: nat, k: nat, h: Handle)
    requires |answers| == |ops| && j < k < |ops|
    requires forall i :: 0 <= i < |ops| ==> AnsweredRight(ops, answers, i)
    ensures Inserts(ops, answers, j, h) ==> !Inserts(ops, answers, k, h)
    ensures Removes(ops, answers, j, h) ==> !Inserts(ops, answers, k, h)
    ensures Removes(ops, answers, j, h) && !ops[k].InsertOp? && ops[k].handle == h ==> answers[k] == Finds(Err(StaleHandle))
  {
    assert AnsweredRight(ops, answers, j) && AnsweredRight(ops, answers, k);
    if Removes(ops, answers, j, h) {
      var i :| 0 <= i < j && Inserts(ops, answers, i, h);
      assert InsertedBefore(ops, answers, k, h) && RemovedBefore(ops, answers, k, h);
    }
  }
}
