/** A context over its resource table: resident buffers, cached bind groups and downloads.
    The device is an in-order queue, so each submission acts on memory at once. */
module GpuContext {
  import opened Wrappers
  import opened Words
  import opened Sequences
  import opened GpuResources

  // ----- ranges in whole words -----

  /** The bytes an allocation of this size takes. */
  function Rounded(size: nat): (r: nat)
    ensures r % 4 == 0 && size <= r < size + 4
  {
    (size + 3) / 4 * 4
  }

  function AlignUp(value: u64): (r: Result<u64, GpuError>)
    ensures r.Ok? <==> Rounded(value) <= U64_MAX
    ensures r.Ok? ==> r.value == Rounded(value)
    ensures r.Err? ==> r.error == InvalidArgument
  {
    if value + 3 > U64_MAX then Err(InvalidArgument) else Ok((value + 3) / 4 * 4)
  }

  predicate CheckedRange(offset: u64, size: u64, capacity: u64)
  {
    offset + size <= U64_MAX && offset + size <= capacity
  }

  lemma RoundedGrows(a: nat, b: nat)
    requires a <= b
    ensures Rounded(a) <= Rounded(b)
  {
  }

  lemma RoundedShifts(offset: nat, length: nat)
    requires offset % 4 == 0
    ensures Rounded(offset + length) == offset + Rounded(length)
  {
  }

  function CopyExtent(offset: u64, length: u64, size: u64): (r: Result<u64, GpuError>)
    ensures r.Ok? ==> offset % 4 == 0 && r.value == Rounded(length)
    ensures r.Err? ==> r.error == InvalidArgument
  {
    if offset % 4 != 0 then Err(InvalidArgument)
    else if length % 4 == 0 then Ok(length)
    else if offset + length > U64_MAX || offset + length != size then Err(InvalidArgument)
    else AlignUp(length)
  }

  /** A range inside the buffer is widened to whole words that stay inside its allocation,
      exactly when it is made of words or ends the buffer. */
  lemma ExtentInside(offset: u64, length: u64, size: u64)
    requires CheckedRange(offset, length, size) && Rounded(size) <= U64_MAX
    ensures CopyExtent(offset, length, size).Ok? <==> offset % 4 == 0 && (length % 4 == 0 || offset + length == size)
    ensures offset % 4 == 0 ==> offset + Rounded(length) <= Rounded(size)
    ensures CopyExtent(offset, length, size).Ok? && Rounded(length) != length ==> offset + length == size
  {
    RoundedGrows(length, size);
    RoundedGrows(offset + length, size);
    if offset % 4 == 0 {
      RoundedShifts(offset, length);
    }
  }

  // ----- the data -----

  datatype Download =
    | Pending(staging: seq<byte>, offset: nat, length: nat, version: nat)
    | Ready(offset: nat, bytes: seq<byte>, version: nat)

  /** `buffer` is the device allocation. */
  datatype BufferEntry =
    BufferEntry(buffer: nat, size: u64, download: Option<Download>, version: nat, completed: Option<nat>)

  datatype KernelEntry =
    KernelEntry(readonly: nat, writable: nat, uniform: nat, workgroup: seq<nat>, dispatches: nat)

  datatype BufferSlot = BufferSlot(buffer: nat, offset: nat, size: nat)

  /** One entry of a bind group: bytes of a device allocation. */
  datatype Range = Range(buffer: nat, offset: nat, size: nat)

  datatype BindingEntry =
    BindingEntry(kernel: nat, readonly: seq<Option<BufferSlot>>, writable: seq<Option<BufferSlot>>, uniform: Option<nat>,
                 readonlyGroup: Option<seq<Range>>, writableGroup: Option<seq<Range>>, uniformGroup: Option<Range>)

  /** What one dispatch hands the device. */
  datatype Submission =
    Submission(readonly: Option<seq<Range>>, writable: Option<seq<Range>>, uniform: Option<Range>,
               uniforms: seq<byte>, groups: seq<nat>)

  datatype KernelLimits = KernelLimits(uniformSize: nat, workgroup: seq<nat>, invocations: nat,
                                       storageBuffers: nat, bindingsPerGroup: nat, bindGroups: nat)

  datatype Limits = Limits(bufferSize: nat, offsetAlignment: nat, bindingSize: nat, workgroups: nat, kernel: KernelLimits)

  /** Everything a context holds. `next` is above every handle drawn so far, `owner` names
      the handle an allocation was made for, and `history` lists the contents a buffer has
      had, by version. */
  datatype State = State(
    buffers: map<nat, BufferEntry>, kernels: map<nat, KernelEntry>, bindings: map<nat, BindingEntry>,
    pending: seq<nat>, memory: map<nat, seq<byte>>, uniforms: map<nat, seq<byte>>, submitted: seq<Submission>,
    next: nat, owner: map<nat, nat>, history: map<nat, seq<seq<byte>>>)

  /** What is reported of a range that is not good: no such buffer, outside it, or not made
      of words. */
  function RangeFault(buffers: map<nat, BufferEntry>, handle: nat, offset: u64, length: u64): GpuError
  {
    if handle !in buffers then StaleHandle(handle)
    else if !CheckedRange(offset, length, buffers[handle].size) then OutOfBounds
    else InvalidArgument
  }

  // ----- what every call keeps -----

  predicate IsPending(buffers: map<nat, BufferEntry>, h: nat)
  {
    h in buffers && buffers[h].download.Some? && buffers[h].download.value.Pending?
  }

  /** The list names, without repeats, exactly the buffers whose download is pending. */
  ghost predicate Listed(buffers: map<nat, BufferEntry>, pending: seq<nat>)
  {
    NoRepeats(pending) && forall h :: h in pending <==> IsPending(buffers, h)
  }

  /** A queued or finished download holds bytes of the version it names. */
  ghost predicate Captured(d: Download, contents: seq<seq<byte>>)
  {
    && d.version < |contents|
    && (d.Pending? ==> d.length <= |d.staging| && d.offset + d.length <= |contents[d.version]|
                       && d.staging[..d.length] == contents[d.version][d.offset..d.offset + d.length])
    && (d.Ready? ==> d.offset + |d.bytes| <= |contents[d.version]|
                     && d.bytes == contents[d.version][d.offset..d.offset + |d.bytes|])
  }

  /** The allocation is the buffer's own and holds its latest version. */
  ghost predicate BufferOk(s: State, h: nat)
    requires h in s.buffers
  {
    var b := s.buffers[h];
    && h < s.next
    && 0 < b.size && Rounded(b.size) <= U64_MAX
    && b.buffer in s.memory && |s.memory[b.buffer]| == Rounded(b.size)
    && b.buffer in s.owner && s.owner[b.buffer] == h
    && h in s.history && |s.history[h]| == b.version + 1 && s.history[h][b.version] == s.memory[b.buffer]
    && (b.download.Some? ==> Captured(b.download.value, s.history[h]))
  }

  predicate Binds(slots: seq<Option<BufferSlot>>, buffer: nat)
  {
    exists i :: 0 <= i < |slots| && slots[i].Some? && slots[i].value.buffer == buffer
  }

  /** A slot is words inside the allocation of the buffer it names, if that is still live. */
  ghost predicate SlotOk(buffers: map<nat, BufferEntry>, next: nat, slot: BufferSlot)
  {
    && slot.buffer < next
    && slot.offset % 4 == 0 && slot.size % 4 == 0 && 0 < slot.size
    && (slot.buffer in buffers ==> slot.offset + slot.size <= Rounded(buffers[slot.buffer].size))
  }

  ghost predicate SlotsOk(buffers: map<nat, BufferEntry>, next: nat, slots: seq<Option<BufferSlot>>)
  {
    forall i :: 0 <= i < |slots| && slots[i].Some? ==> SlotOk(buffers, next, slots[i].value)
  }

  /** A cached group agrees with the slots wherever their buffers are still live. */
  ghost predicate GroupOk(buffers: map<nat, BufferEntry>, slots: seq<Option<BufferSlot>>, group: Option<seq<Range>>)
  {
    group.Some? ==>
      && |group.value| == |slots| && 0 < |slots|
      && forall i :: 0 <= i < |slots| ==> Agrees(buffers, slots[i], group.value[i])
  }

  ghost predicate Agrees(buffers: map<nat, BufferEntry>, slot: Option<BufferSlot>, range: Range)
  {
    slot.Some? && (slot.value.buffer in buffers ==> range == Entry(buffers, slot.value))
  }

  function Entry(buffers: map<nat, BufferEntry>, slot: BufferSlot): Range
    requires slot.buffer in buffers
  {
    Range(buffers[slot.buffer].buffer, slot.offset, slot.size)
  }

  ghost predicate KernelOk(k: KernelEntry)
  {
    k.uniform % 4 == 0 && |k.workgroup| == 3 && 0 < k.workgroup[0] && 0 < k.workgroup[1] && 0 < k.workgroup[2]
  }

  function SaturatingAdd(a: nat, b: nat): nat { if a + b > 0xFFFF_FFFF then 0xFFFF_FFFF else a + b }

  /** The groups 0 up to the last one a kernel of this shape uses. */
  function GroupsUsed(k: KernelEntry): nat
  {
    if k.uniform != 0 then 3 else if k.writable != 0 then 2 else if k.readonly != 0 then 1 else 0
  }

  /** Every dimension of the workgroup is used and within its limit, and so is their product. */
  predicate WorkgroupAllowed(limits: KernelLimits, w: seq<nat>)
    requires |w| == 3 && |limits.workgroup| == 3
  {
    && (forall i :: 0 <= i < 3 ==> 0 < w[i] <= limits.workgroup[i])
    && w[0] * w[1] * w[2] <= limits.invocations
  }

  /** What the device's limits ask of a kernel. */
  predicate KernelAllowed(limits: KernelLimits, k: KernelEntry)
    requires |k.workgroup| == 3 && |limits.workgroup| == 3
  {
    && k.uniform % 4 == 0 && k.uniform <= limits.uniformSize
    && WorkgroupAllowed(limits, k.workgroup)
    && k.readonly <= limits.storageBuffers && k.writable <= limits.storageBuffers
    && k.readonly <= limits.bindingsPerGroup && k.writable <= limits.bindingsPerGroup
    && SaturatingAdd(k.readonly, k.writable) <= limits.storageBuffers
    && GroupsUsed(k) <= limits.bindGroups
  }

  ghost predicate Disjoint(readonly: seq<Option<BufferSlot>>, writable: seq<Option<BufferSlot>>)
  {
    forall h :: !(Binds(readonly, h) && Binds(writable, h))
  }

  /** The binding still has the shape of its kernel, if that is still live. */
  ghost predicate Fits(kernels: map<nat, KernelEntry>, uniforms: map<nat, seq<byte>>, d: BindingEntry)
  {
    && (d.kernel in kernels ==>
          && |d.readonly| == kernels[d.kernel].readonly && |d.writable| == kernels[d.kernel].writable
          && (d.uniform.Some? <==> kernels[d.kernel].uniform != 0)
          && (d.uniform.Some? ==> d.uniform.value in uniforms && kernels[d.kernel].uniform <= |uniforms[d.uniform.value]|)
          && (d.uniformGroup.Some? ==> d.uniform.Some? && d.uniformGroup.value == Range(d.uniform.value, 0, kernels[d.kernel].uniform)))
  }

  ghost predicate BindingOk(s: State, d: BindingEntry)
  {
    && d.kernel < s.next
    && Fits(s.kernels, s.uniforms, d)
    && SlotsOk(s.buffers, s.next, d.readonly) && SlotsOk(s.buffers, s.next, d.writable)
    && Disjoint(d.readonly, d.writable)
    && GroupOk(s.buffers, d.readonly, d.readonlyGroup) && GroupOk(s.buffers, d.writable, d.writableGroup)
  }

  ghost predicate Coherent(s: State)
  {
    && Listed(s.buffers, s.pending)
    && (forall h :: h in s.buffers ==> BufferOk(s, h))
    && (forall h :: h in s.kernels ==> h < s.next && KernelOk(s.kernels[h]))
    && (forall h :: h in s.bindings ==> h < s.next && BindingOk(s, s.bindings[h]))
    && (forall h :: h in s.history ==> h < s.next)
  }

  // ----- bindings outlive changes to buffers and kernels -----

  /** A buffer drawn before `next` is gone or still has its allocation and size. */
  ghost predicate Steady(before: map<nat, BufferEntry>, after: map<nat, BufferEntry>, next: nat)
  {
    forall h :: h in after && h < next ==> h in before && after[h].buffer == before[h].buffer && after[h].size == before[h].size
  }

  /** A kernel drawn before `next` is gone or still has its shape. */
  ghost predicate SteadyKernels(before: map<nat, KernelEntry>, after: map<nat, KernelEntry>, next: nat)
  {
    forall h :: h in after && h < next ==> h in before && after[h].(dispatches := 0) == before[h].(dispatches := 0)
  }

  lemma GroupSteady(before: map<nat, BufferEntry>, after: map<nat, BufferEntry>, next: nat,
                    slots: seq<Option<BufferSlot>>, group: Option<seq<Range>>)
    requires Steady(before, after, next) && SlotsOk(before, next, slots) && GroupOk(before, slots, group)
    ensures GroupOk(after, slots, group)
  {
    if group.Some? {
      forall i | 0 <= i < |slots| ensures Agrees(after, slots[i], group.value[i]) {
        assert Agrees(before, slots[i], group.value[i]);
        assert SlotOk(before, next, slots[i].value);
      }
    }
  }

  lemma SlotsSteady(before: map<nat, BufferEntry>, after: map<nat, BufferEntry>, next: nat, later: nat, slots: seq<Option<BufferSlot>>)
    requires Steady(before, after, next) && next <= later && SlotsOk(before, next, slots)
    ensures SlotsOk(after, later, slots)
  {
    forall i | 0 <= i < |slots| && slots[i].Some? ensures SlotOk(after, later, slots[i].value) {
      assert SlotOk(before, next, slots[i].value);
    }
  }

  lemma BindingSteady(s: State, t: State, d: BindingEntry)
    requires BindingOk(s, d) && s.next <= t.next
    requires Steady(s.buffers, t.buffers, s.next) && SteadyKernels(s.kernels, t.kernels, s.next)
    requires forall u :: u in s.uniforms ==> u in t.uniforms && |t.uniforms[u]| == |s.uniforms[u]|
    ensures BindingOk(t, d)
  {
    SlotsSteady(s.buffers, t.buffers, s.next, t.next, d.readonly);
    SlotsSteady(s.buffers, t.buffers, s.next, t.next, d.writable);
    GroupSteady(s.buffers, t.buffers, s.next, d.readonly, d.readonlyGroup);
    GroupSteady(s.buffers, t.buffers, s.next, d.writable, d.writableGroup);
    if d.kernel in t.kernels {
      var before, after := s.kernels[d.kernel], t.kernels[d.kernel];
      assert after.(dispatches := 0).readonly == before.(dispatches := 0).readonly;
      assert after.(dispatches := 0).writable == before.(dispatches := 0).writable;
      assert after.(dispatches := 0).uniform == before.(dispatches := 0).uniform;
    }
  }

  lemma BindingsSteady(s: State, t: State)
    requires Coherent(s) && s.next <= t.next && t.bindings == s.bindings
    requires Steady(s.buffers, t.buffers, s.next) && SteadyKernels(s.kernels, t.kernels, s.next)
    requires forall u :: u in s.uniforms ==> u in t.uniforms && |t.uniforms[u]| == |s.uniforms[u]|
    ensures forall h :: h in t.bindings ==> h < t.next && BindingOk(t, t.bindings[h])
  {
    forall h | h in t.bindings ensures h < t.next && BindingOk(t, t.bindings[h]) {
      BindingSteady(s, t, t.bindings[h]);
    }
  }

  // ----- one buffer changes -----

  /** Only this buffer's entry, allocation and history changed. */
  ghost predicate Touches(s: State, t: State, h: nat)
    requires h in s.buffers
  {
    && h in t.buffers && t.buffers == s.buffers[h := t.buffers[h]]
    && t.buffers[h].buffer == s.buffers[h].buffer && t.buffers[h].size == s.buffers[h].size
    && (forall d :: d in s.memory ==> d in t.memory && (d != s.buffers[h].buffer ==> t.memory[d] == s.memory[d]))
    && (forall g :: g in t.history <==> g in s.history)
    && (forall g :: g in s.history && g != h ==> t.history[g] == s.history[g])
    && t.kernels == s.kernels && t.bindings == s.bindings && t.uniforms == s.uniforms
    && t.next == s.next && t.owner == s.owner
  }

  lemma TouchKeeps(s: State, t: State, h: nat)
    requires Coherent(s) && h in s.buffers && Touches(s, t, h)
    requires BufferOk(t, h) && Listed(t.buffers, t.pending)
    ensures Coherent(t)
  {
    assert BufferOk(s, h);
    forall g | g in t.buffers ensures BufferOk(t, g) {
      assert g != h ==> BufferOk(s, g);
    }
    BindingsSteady(s, t);
  }

  function Zeros(n: nat): (r: seq<byte>)
    ensures |r| == n && forall i :: 0 <= i < n ==> r[i] == 0
  {
    seq(n, _ => 0)
  }

  /** The bytes with a run of them replaced. */
  function Overwritten(memory: seq<byte>, offset: nat, bytes: seq<byte>): (r: seq<byte>)
    requires offset + |bytes| <= |memory|
    ensures |r| == |memory| && r[offset..offset + |bytes|] == bytes
    ensures r[..offset] == memory[..offset] && r[offset + |bytes|..] == memory[offset + |bytes|..]
  {
    memory[..offset] + bytes + memory[offset + |bytes|..]
  }

  lemma CapturedLater(d: Download, contents: seq<seq<byte>>, more: seq<byte>)
    requires Captured(d, contents)
    ensures Captured(d, contents + [more])
  {
    assert (contents + [more])[d.version] == contents[d.version];
  }

  /** The state with new contents, and so a new version, in one buffer. */
  ghost function Stored(s: State, h: nat, contents: seq<byte>): State
    requires h in s.buffers && h in s.history
  {
    var b := s.buffers[h];
    s.(buffers := s.buffers[h := b.(version := b.version + 1)], memory := s.memory[b.buffer := contents],
       history := s.history[h := s.history[h] + [contents]])
  }

  lemma StoredKeeps(s: State, h: nat, contents: seq<byte>)
    requires Coherent(s) && h in s.buffers && s.buffers[h].buffer in s.memory
    requires |contents| == |s.memory[s.buffers[h].buffer]|
    ensures h in s.history && Coherent(Stored(s, h, contents))
  {
    assert BufferOk(s, h);
    var t := Stored(s, h, contents);
    if s.buffers[h].download.Some? {
      CapturedLater(s.buffers[h].download.value, s.history[h], contents);
    }
    assert Listed(t.buffers, t.pending) by {
      forall g ensures g in t.pending <==> IsPending(t.buffers, g) {
        assert g in s.pending <==> IsPending(s.buffers, g);
      }
    }
    TouchKeeps(s, t, h);
  }

  /** The state with a new buffer of these contents. */
  ghost function Created(s: State, h: nat, device: nat, size: u64, contents: seq<byte>): State
  {
    s.(buffers := s.buffers[h := BufferEntry(device, size, None, 0, None)], next := h + 1,
       memory := s.memory[device := contents], owner := s.owner[device := h], history := s.history[h := [contents]])
  }

  lemma CreateKeepsBuffers(s: State, h: nat, device: nat, size: u64, contents: seq<byte>)
    requires Coherent(s) && s.next <= h && device !in s.memory
    requires 0 < size && Rounded(size) <= U64_MAX && |contents| == Rounded(size)
    ensures h !in s.buffers
    ensures forall g :: g in Created(s, h, device, size, contents).buffers ==> BufferOk(Created(s, h, device, size, contents), g)
  {
    var t := Created(s, h, device, size, contents);
    assert h !in s.buffers by { assert h in s.buffers ==> BufferOk(s, h); }
    forall g | g in t.buffers ensures BufferOk(t, g) {
      assert g != h ==> BufferOk(s, g);
    }
  }

  lemma CreateKeepsListed(s: State, h: nat, device: nat, size: u64, contents: seq<byte>)
    requires Listed(s.buffers, s.pending) && h !in s.buffers
    ensures Listed(Created(s, h, device, size, contents).buffers, s.pending)
  {
    var t := Created(s, h, device, size, contents);
    forall g ensures g in s.pending <==> IsPending(t.buffers, g) {
      assert g in s.pending <==> IsPending(s.buffers, g);
    }
  }

  lemma CreateKeeps(s: State, h: nat, device: nat, size: u64, contents: seq<byte>)
    requires Coherent(s) && s.next <= h && device !in s.memory
    requires 0 < size && Rounded(size) <= U64_MAX && |contents| == Rounded(size)
    ensures h !in s.buffers
    ensures Coherent(Created(s, h, device, size, contents))
  {
    CreateKeepsBuffers(s, h, device, size, contents);
    CreateKeepsListed(s, h, device, size, contents);
    BindingsSteady(s, Created(s, h, device, size, contents));
  }

  lemma ReleaseKeeps(s: State, h: nat)
    requires Coherent(s) && h in s.buffers && !IsPending(s.buffers, h)
    ensures Coherent(s.(buffers := s.buffers - {h}))
  {
    var t := s.(buffers := s.buffers - {h});
    forall g | g in t.buffers ensures BufferOk(t, g) {
      assert BufferOk(s, g);
    }
    forall g ensures g in t.pending <==> IsPending(t.buffers, g) {
      assert g in s.pending <==> IsPending(s.buffers, g);
    }
    BindingsSteady(s, t);
  }

  // ----- kernels, bindings and their slots -----

  /** The state with a new kernel. */
  ghost function WithKernel(s: State, h: nat, k: KernelEntry): State
  {
    s.(kernels := s.kernels[h := k], next := h + 1)
  }

  lemma KernelKeeps(s: State, h: nat, k: KernelEntry)
    requires Coherent(s) && s.next <= h && KernelOk(k)
    ensures h !in s.kernels && Coherent(WithKernel(s, h, k))
  {
    var t := WithKernel(s, h, k);
    forall g | g in t.buffers ensures BufferOk(t, g) {
      assert BufferOk(s, g);
    }
    BindingsSteady(s, t);
  }

  lemma KernelReleaseKeeps(s: State, h: nat)
    requires Coherent(s)
    ensures Coherent(s.(kernels := s.kernels - {h}))
  {
    var t := s.(kernels := s.kernels - {h});
    forall g | g in t.buffers ensures BufferOk(t, g) {
      assert BufferOk(s, g);
    }
    BindingsSteady(s, t);
  }

  /** Replacing or adding one binding keeps everything if the binding itself is good. */
  lemma BindingKeeps(s: State, t: State, h: nat)
    requires Coherent(s) && h in t.bindings && t.bindings == s.bindings[h := t.bindings[h]]
    requires s.next <= t.next && h < t.next && BindingOk(t, t.bindings[h])
    requires t == s.(bindings := t.bindings, next := t.next, uniforms := t.uniforms)
    requires forall u :: u in s.uniforms ==> u in t.uniforms && |t.uniforms[u]| == |s.uniforms[u]|
    ensures Coherent(t)
  {
    forall g | g in t.buffers ensures BufferOk(t, g) {
      assert BufferOk(s, g);
    }
    forall g | g in t.bindings ensures g < t.next && BindingOk(t, t.bindings[g]) {
      if g != h {
        BindingSteady(s, t, s.bindings[g]);
      }
    }
  }

  lemma BindingReleaseKeeps(s: State, h: nat)
    requires Coherent(s)
    ensures Coherent(s.(bindings := s.bindings - {h}))
  {
    var t := s.(bindings := s.bindings - {h});
    forall g | g in t.buffers ensures BufferOk(t, g) {
      assert BufferOk(s, g);
    }
    forall g | g in t.bindings ensures g < t.next && BindingOk(t, t.bindings[g]) {
      BindingSteady(s, t, s.bindings[g]);
    }
  }

  /** Filling a slot that the other side does not name keeps the sides apart, and clearing
      that side's group keeps the cache true. */
  function SlotSet(d: BindingEntry, writable: bool, slot: nat, value: BufferSlot): BindingEntry
    requires slot < if writable then |d.writable| else |d.readonly|
  {
    if writable then d.(writable := d.writable[slot := Some(value)], writableGroup := None)
    else d.(readonly := d.readonly[slot := Some(value)], readonlyGroup := None)
  }

  /** Whole words or up to the end of the buffer, aligned, and within the limits. */
  predicate Bindable(limits: Limits, offset: nat, size: nat, capacity: nat)
    requires limits.offsetAlignment > 0
  {
    && 0 < size && offset % 4 == 0 && (size % 4 == 0 || offset + size == capacity)
    && offset % limits.offsetAlignment == 0 && Rounded(size) <= limits.bindingSize
  }

  /** Exactly when a range of a buffer may fill a slot: inside the buffer, whole words or up
      to its end, aligned, within the limits, and not bound on the other side. */
  predicate Settable(s: State, limits: Limits, handle: nat, writable: bool, slot: nat, buffer: nat, offset: nat, size: nat)
    requires limits.offsetAlignment > 0
  {
    && buffer in s.buffers && handle in s.bindings && offset + size <= s.buffers[buffer].size
    && Bindable(limits, offset, size, s.buffers[buffer].size)
    && !Binds(if writable then s.bindings[handle].readonly else s.bindings[handle].writable, buffer)
    && slot < if writable then |s.bindings[handle].writable| else |s.bindings[handle].readonly|
  }

  /** Why a slot may not be set, in the order the reasons are found. */
  function SlotFault(s: State, limits: Limits, handle: nat, buffer: nat, offset: nat, size: nat): GpuError
    requires limits.offsetAlignment > 0
  {
    if buffer !in s.buffers then StaleHandle(buffer)
    else if offset + size > s.buffers[buffer].size then OutOfBounds
    else if handle !in s.bindings && Bindable(limits, offset, size, s.buffers[buffer].size) then StaleHandle(handle)
    else InvalidArgument
  }

  lemma BindsSet(slots: seq<Option<BufferSlot>>, slot: nat, value: BufferSlot, h: nat)
    requires slot < |slots| && Binds(slots[slot := Some(value)], h)
    ensures h == value.buffer || Binds(slots, h)
  {
    var after := slots[slot := Some(value)];
    var i :| 0 <= i < |after| && after[i].Some? && after[i].value.buffer == h;
    assert i != slot ==> after[i] == slots[i];
  }

  lemma SlotKeeps(s: State, d: BindingEntry, writable: bool, slot: nat, value: BufferSlot)
    requires BindingOk(s, d) && SlotOk(s.buffers, s.next, value)
    requires slot < if writable then |d.writable| else |d.readonly|
    requires !Binds(if writable then d.readonly else d.writable, value.buffer)
    ensures BindingOk(s, SlotSet(d, writable, slot, value))
  {
    var e := SlotSet(d, writable, slot, value);
    forall h ensures !(Binds(e.readonly, h) && Binds(e.writable, h)) {
      if writable && Binds(e.writable, h) {
        BindsSet(d.writable, slot, value, h);
      }
      if !writable && Binds(e.readonly, h) {
        BindsSet(d.readonly, slot, value, h);
      }
    }
  }

  // ----- what callers asked for -----

  /** A slot of a binding, and the part of a buffer it was last set to. */
  datatype Place = Place(binding: nat, writable: bool, slot: nat)
  datatype Part = Part(buffer: nat, offset: nat, size: nat)

  function Side(d: BindingEntry, writable: bool): seq<Option<BufferSlot>> { if writable then d.writable else d.readonly }

  ghost predicate FilledAt(d: BindingEntry, p: Place, part: Part)
  {
    && p.slot < |Side(d, p.writable)|
    && Side(d, p.writable)[p.slot] == Some(BufferSlot(part.buffer, part.offset, Rounded(part.size)))
  }

  /** The slots of the live bindings hold what was asked for, and nothing else. */
  ghost predicate Filled(bindings: map<nat, BindingEntry>, asked: map<Place, Part>)
  {
    && (forall p :: p in asked ==> p.binding in bindings && FilledAt(bindings[p.binding], p, asked[p]))
    && (forall h, w, i :: h in bindings && 0 <= i < |Side(bindings[h], w)| && Side(bindings[h], w)[i].Some? ==> Place(h, w, i) in asked)
  }

  lemma FilledSet(bindings: map<nat, BindingEntry>, asked: map<Place, Part>, p: Place, part: Part)
    requires Filled(bindings, asked) && p.binding in bindings
    requires p.slot < |Side(bindings[p.binding], p.writable)|
    ensures p.slot < if p.writable then |bindings[p.binding].writable| else |bindings[p.binding].readonly|
    ensures var d := SlotSet(bindings[p.binding], p.writable, p.slot, BufferSlot(part.buffer, part.offset, Rounded(part.size)));
            Filled(bindings[p.binding := d], asked[p := part])
  {
    var d := SlotSet(bindings[p.binding], p.writable, p.slot, BufferSlot(part.buffer, part.offset, Rounded(part.size)));
    var after, wishes := bindings[p.binding := d], asked[p := part];
    forall q | q in wishes ensures q.binding in after && FilledAt(after[q.binding], q, wishes[q]) {
      if q != p {
        assert FilledAt(bindings[q.binding], q, asked[q]);
      }
    }
  }

  /** A binding whose slots are as they were. */
  lemma FilledSame(bindings: map<nat, BindingEntry>, asked: map<Place, Part>, h: nat, d: BindingEntry)
    requires Filled(bindings, asked) && h in bindings
    requires d.readonly == bindings[h].readonly && d.writable == bindings[h].writable
    ensures Filled(bindings[h := d], asked)
  {
    var after := bindings[h := d];
    assert forall g, w :: g in after ==> g in bindings && Side(after[g], w) == Side(bindings[g], w);
    forall p | p in asked ensures p.binding in after && FilledAt(after[p.binding], p, asked[p]) {
      assert FilledAt(bindings[p.binding], p, asked[p]);
    }
  }

  lemma FilledNew(bindings: map<nat, BindingEntry>, asked: map<Place, Part>, h: nat, d: BindingEntry)
    requires Filled(bindings, asked) && h !in bindings
    requires forall w, i :: 0 <= i < |Side(d, w)| ==> Side(d, w)[i].None?
    ensures Filled(bindings[h := d], asked)
  {
    forall p | p in asked ensures p.binding in bindings && FilledAt(bindings[p.binding], p, asked[p]) {
    }
  }

  /** A binding as it is created: the shape of its kernel, nothing set, nothing built. */
  ghost predicate Unset(kernels: map<nat, KernelEntry>, uniforms: map<nat, seq<byte>>, d: BindingEntry)
  {
    && d.kernel in kernels && |d.readonly| == kernels[d.kernel].readonly && |d.writable| == kernels[d.kernel].writable
    && (forall w, i :: 0 <= i < |Side(d, w)| ==> Side(d, w)[i].None?)
    && d.readonlyGroup.None? && d.writableGroup.None? && d.uniformGroup.None?
    && (d.uniform.Some? <==> kernels[d.kernel].uniform != 0)
    && (d.uniform.Some? ==> d.uniform.value in uniforms && kernels[d.kernel].uniform <= |uniforms[d.uniform.value]|)
  }

  function NewEntry(kernel: nat, k: KernelEntry, device: nat): BindingEntry
  {
    BindingEntry(kernel, seq(k.readonly, _ => None), seq(k.writable, _ => None), if k.uniform != 0 then Some(device) else None,
                 None, None, None)
  }

  /** The uniform allocations with one for this kernel, in whole blocks of sixteen bytes. */
  function Allocated(uniforms: map<nat, seq<byte>>, k: KernelEntry, device: nat): map<nat, seq<byte>>
  {
    if k.uniform != 0 then uniforms[device := Zeros((k.uniform + 15) / 16 * 16)] else uniforms
  }

  lemma NewEntryUnset(kernels: map<nat, KernelEntry>, uniforms: map<nat, seq<byte>>, kernel: nat, device: nat)
    requires kernel in kernels && device !in uniforms
    ensures Unset(kernels, Allocated(uniforms, kernels[kernel], device), NewEntry(kernel, kernels[kernel], device))
    ensures var after := Allocated(uniforms, kernels[kernel], device);
            forall u :: u in uniforms ==> u in after && |after[u]| == |uniforms[u]|
  {
  }

  ghost function WithBinding(s: State, h: nat, d: BindingEntry, uniforms: map<nat, seq<byte>>): State
  {
    s.(bindings := s.bindings[h := d], uniforms := uniforms, next := h + 1)
  }

  lemma UnsetOk(s: State, d: BindingEntry)
    requires Unset(s.kernels, s.uniforms, d) && d.kernel < s.next
    ensures BindingOk(s, d)
  {
    assert forall i :: 0 <= i < |d.readonly| ==> d.readonly[i] == Side(d, false)[i];
    assert forall i :: 0 <= i < |d.writable| ==> d.writable[i] == Side(d, true)[i];
  }

  lemma NewBindingKeeps(s: State, h: nat, d: BindingEntry, uniforms: map<nat, seq<byte>>)
    requires Coherent(s) && s.next == h && Unset(s.kernels, uniforms, d)
    requires forall u :: u in s.uniforms ==> u in uniforms && |uniforms[u]| == |s.uniforms[u]|
    ensures h !in s.bindings && Coherent(WithBinding(s, h, d, uniforms))
  {
    var t := WithBinding(s, h, d, uniforms);
    UnsetOk(t, d);
    BindingKeeps(s, t, h);
  }

  ghost function AskedElsewhere(asked: map<Place, Part>, h: nat): map<Place, Part>
  {
    map p | p in asked && p.binding != h :: asked[p]
  }

  lemma FilledLess(bindings: map<nat, BindingEntry>, asked: map<Place, Part>, h: nat)
    requires Filled(bindings, asked)
    ensures Filled(bindings - {h}, AskedElsewhere(asked, h))
  {
    forall p | p in asked ensures FilledAt(bindings[p.binding], p, asked[p]) {
    }
  }

  // ----- dispatching -----

  /** Every slot is set and its buffer live. */
  predicate AllLive(buffers: map<nat, BufferEntry>, slots: seq<Option<BufferSlot>>)
  {
    forall i :: 0 <= i < |slots| ==> slots[i].Some? && slots[i].value.buffer in buffers
  }

  /** The group these slots stand for; a side without slots has no layout and no group. */
  function SideGroup(buffers: map<nat, BufferEntry>, slots: seq<Option<BufferSlot>>): Option<seq<Range>>
    requires AllLive(buffers, slots)
  {
    if |slots| == 0 then None
    else Some(seq(|slots|, i requires 0 <= i < |slots| => Entry(buffers, slots[i].value)))
  }

  /** A cached group, whenever it was built, is the group of the slots as they are now. */
  lemma CacheIsCurrent(buffers: map<nat, BufferEntry>, slots: seq<Option<BufferSlot>>, group: Option<seq<Range>>)
    requires AllLive(buffers, slots) && GroupOk(buffers, slots, group) && group.Some?
    ensures group == SideGroup(buffers, slots)
  {
    forall i | 0 <= i < |slots| ensures group.value[i] == Entry(buffers, slots[i].value) {
      assert Agrees(buffers, slots[i], group.value[i]);
    }
    assert group.value == SideGroup(buffers, slots).value;
  }

  lemma SideGroupOk(buffers: map<nat, BufferEntry>, slots: seq<Option<BufferSlot>>)
    requires AllLive(buffers, slots)
    ensures GroupOk(buffers, slots, SideGroup(buffers, slots))
  {
  }

  /** What a dispatch needs before anything is submitted. */
  predicate Dispatchable(s: State, handle: nat, uniforms: nat)
  {
    && handle in s.bindings && s.bindings[handle].kernel in s.kernels
    && uniforms == s.kernels[s.bindings[handle].kernel].uniform
    && AllLive(s.buffers, s.bindings[handle].readonly) && AllLive(s.buffers, s.bindings[handle].writable)
  }

  /** The first slot at or after `i` that is not set or whose buffer is gone. */
  function FirstDead(buffers: map<nat, BufferEntry>, slots: seq<Option<BufferSlot>>, i: nat): (k: nat)
    requires i <= |slots|
    ensures i <= k <= |slots|
    ensures forall j :: i <= j < k ==> slots[j].Some? && slots[j].value.buffer in buffers
    ensures k < |slots| ==> slots[k].None? || slots[k].value.buffer !in buffers
    decreases |slots| - i
  {
    if i < |slots| && slots[i].Some? && slots[i].value.buffer in buffers then FirstDead(buffers, slots, i + 1) else i
  }

  /** What is reported of slots that are not all live: the first that is missing, or whose
      buffer is gone. */
  function SlotsFault(buffers: map<nat, BufferEntry>, slots: seq<Option<BufferSlot>>, writable: bool): GpuError
  {
    var i := FirstDead(buffers, slots, 0);
    if i < |slots| && slots[i].Some? then StaleHandle(slots[i].value.buffer) else MissingBinding(writable, i)
  }

  /** Why a dispatch is refused, in the order the reasons are found. */
  function DispatchFault(s: State, handle: nat, uniforms: nat): GpuError
  {
    if handle !in s.bindings then StaleHandle(handle)
    else if s.bindings[handle].kernel !in s.kernels then StaleHandle(s.bindings[handle].kernel)
    else if uniforms != s.kernels[s.bindings[handle].kernel].uniform then InvalidArgument
    else if !AllLive(s.buffers, s.bindings[handle].readonly) then SlotsFault(s.buffers, s.bindings[handle].readonly, false)
    else SlotsFault(s.buffers, s.bindings[handle].writable, true)
  }

  /** The binding with every group built from its slots. */
  function Grouped(s: State, handle: nat): BindingEntry
    requires handle in s.bindings && s.bindings[handle].kernel in s.kernels
    requires AllLive(s.buffers, s.bindings[handle].readonly) && AllLive(s.buffers, s.bindings[handle].writable)
  {
    var d := s.bindings[handle];
    d.(readonlyGroup := SideGroup(s.buffers, d.readonly), writableGroup := SideGroup(s.buffers, d.writable),
       uniformGroup := if d.uniform.None? then None else Some(Range(d.uniform.value, 0, s.kernels[d.kernel].uniform)))
  }

  lemma GroupedOk(s: State, handle: nat, uniforms: nat)
    requires Coherent(s) && Dispatchable(s, handle, uniforms)
    ensures BindingOk(s, Grouped(s, handle))
  {
    SideGroupOk(s.buffers, s.bindings[handle].readonly);
    SideGroupOk(s.buffers, s.bindings[handle].writable);
  }

  predicate Writes(group: Option<seq<Range>>, device: nat)
  {
    group.Some? && exists i :: 0 <= i < |group.value| && group.value[i].buffer == device
  }

  /** The device may leave anything in the allocations a dispatch writes, and only there. */
  function Executed(memory: map<nat, seq<byte>>, group: Option<seq<Range>>, produced: map<nat, seq<byte>>): map<nat, seq<byte>>
  {
    map d | d in memory ::
      if Writes(group, d) && d in produced && |produced[d]| == |memory[d]| then produced[d] else memory[d]
  }

  /** One new version for each of these buffers. */
  function Bumped(buffers: map<nat, BufferEntry>, slots: seq<Option<BufferSlot>>): map<nat, BufferEntry>
  {
    map h | h in buffers ::
      if Binds(slots, h) then buffers[h].(version := buffers[h].version + 1) else buffers[h]
  }

  ghost function Recorded(s: State, slots: seq<Option<BufferSlot>>, memory: map<nat, seq<byte>>): map<nat, seq<seq<byte>>>
  {
    map h | h in s.history ::
      if h in s.buffers && Binds(slots, h) && s.buffers[h].buffer in memory
      then s.history[h] + [memory[s.buffers[h].buffer]] else s.history[h]
  }

  /** The state after a dispatch that writes these slots has run. */
  ghost function Ran(s: State, slots: seq<Option<BufferSlot>>, submission: Submission, produced: map<nat, seq<byte>>): State
  {
    var memory := Executed(s.memory, submission.writable, produced);
    s.(buffers := Bumped(s.buffers, slots), memory := memory, history := Recorded(s, slots, memory),
       submitted := s.submitted + [submission])
  }

  /** An allocation is written only through a slot that names its buffer. */
  lemma WritesBind(s: State, slots: seq<Option<BufferSlot>>, h: nat)
    requires h in s.buffers && AllLive(s.buffers, slots) && (forall g :: g in s.buffers ==> BufferOk(s, g))
    requires Writes(SideGroup(s.buffers, slots), s.buffers[h].buffer)
    ensures Binds(slots, h)
  {
    var group := SideGroup(s.buffers, slots).value;
    var i :| 0 <= i < |group| && group[i].buffer == s.buffers[h].buffer;
    var g := slots[i].value.buffer;
    assert BufferOk(s, g) && BufferOk(s, h);
  }

  lemma RanBuffer(s: State, slots: seq<Option<BufferSlot>>, submission: Submission, produced: map<nat, seq<byte>>, h: nat)
    requires Coherent(s) && AllLive(s.buffers, slots) && submission.writable == SideGroup(s.buffers, slots) && h in s.buffers
    ensures BufferOk(Ran(s, slots, submission, produced), h)
  {
    assert BufferOk(s, h);
    var t := Ran(s, slots, submission, produced);
    var device := s.buffers[h].buffer;
    if Binds(slots, h) {
      if s.buffers[h].download.Some? {
        CapturedLater(s.buffers[h].download.value, s.history[h], t.memory[device]);
      }
    } else if Writes(submission.writable, device) {
      WritesBind(s, slots, h);
    }
  }

  lemma RanListed(s: State, slots: seq<Option<BufferSlot>>)
    requires Listed(s.buffers, s.pending)
    ensures Listed(Bumped(s.buffers, slots), s.pending)
  {
    var after := Bumped(s.buffers, slots);
    forall h ensures h in s.pending <==> IsPending(after, h) {
      assert h in s.pending <==> IsPending(s.buffers, h);
    }
  }

  lemma RanSteady(s: State, slots: seq<Option<BufferSlot>>)
    ensures Steady(s.buffers, Bumped(s.buffers, slots), s.next)
  {
  }

  lemma RanBuffers(s: State, slots: seq<Option<BufferSlot>>, submission: Submission, produced: map<nat, seq<byte>>)
    requires Coherent(s) && AllLive(s.buffers, slots) && submission.writable == SideGroup(s.buffers, slots)
    ensures forall h :: h in Ran(s, slots, submission, produced).buffers ==> BufferOk(Ran(s, slots, submission, produced), h)
  {
    var t := Ran(s, slots, submission, produced);
    forall h | h in t.buffers ensures BufferOk(t, h) {
      RanBuffer(s, slots, submission, produced, h);
    }
  }

  lemma RanKeeps(s: State, slots: seq<Option<BufferSlot>>, submission: Submission, produced: map<nat, seq<byte>>)
    requires Coherent(s) && AllLive(s.buffers, slots) && submission.writable == SideGroup(s.buffers, slots)
    ensures Coherent(Ran(s, slots, submission, produced))
  {
    RanBuffers(s, slots, submission, produced);
    RanListed(s, slots);
    RanSteady(s, slots);
    BindingsSteady(s, Ran(s, slots, submission, produced));
  }

  lemma CountKeeps(s: State, h: nat, k: KernelEntry)
    requires Coherent(s) && h in s.kernels && k == s.kernels[h].(dispatches := k.dispatches)
    ensures Coherent(s.(kernels := s.kernels[h := k]))
  {
    var t := s.(kernels := s.kernels[h := k]);
    forall g | g in t.buffers ensures BufferOk(t, g) {
      assert BufferOk(s, g);
    }
    BindingsSteady(s, t);
  }

  /** Every range of the group is whole words inside an allocation. */
  ghost predicate Inside(memory: map<nat, seq<byte>>, group: Option<seq<Range>>)
  {
    group.Some? ==> forall i :: 0 <= i < |group.value| ==> InsideOne(memory, group.value[i])
  }

  ghost predicate InsideOne(memory: map<nat, seq<byte>>, r: Range)
  {
    r.offset % 4 == 0 && r.size % 4 == 0 && 0 < r.size && r.buffer in memory && r.offset + r.size <= |memory[r.buffer]|
  }

  lemma GroupInside(s: State, slots: seq<Option<BufferSlot>>)
    requires Coherent(s) && AllLive(s.buffers, slots) && SlotsOk(s.buffers, s.next, slots)
    ensures Inside(s.memory, SideGroup(s.buffers, slots))
  {
    forall i | 0 <= i < |slots| ensures InsideOne(s.memory, Entry(s.buffers, slots[i].value)) {
      assert SlotOk(s.buffers, s.next, slots[i].value);
      assert BufferOk(s, slots[i].value.buffer);
    }
  }

  /** No allocation is both read and written. */
  ghost predicate Apart(read: Option<seq<Range>>, write: Option<seq<Range>>)
  {
    forall d :: !(Writes(read, d) && Writes(write, d))
  }

  lemma GroupsApart(s: State, readonly: seq<Option<BufferSlot>>, writable: seq<Option<BufferSlot>>)
    requires Coherent(s) && AllLive(s.buffers, readonly) && AllLive(s.buffers, writable) && Disjoint(readonly, writable)
    ensures Apart(SideGroup(s.buffers, readonly), SideGroup(s.buffers, writable))
  {
    forall d ensures !(Writes(SideGroup(s.buffers, readonly), d) && Writes(SideGroup(s.buffers, writable), d)) {
      if Writes(SideGroup(s.buffers, readonly), d) && Writes(SideGroup(s.buffers, writable), d) {
        var group := SideGroup(s.buffers, readonly).value;
        var i :| 0 <= i < |group| && group[i].buffer == d;
        var h := readonly[i].value.buffer;
        assert s.buffers[h].buffer == d && Binds(readonly, h);
        WritesBind(s, writable, h);
        assert false;
      }
    }
  }

  /** The uniform allocation starts with the data. */
  predicate Loaded(uniforms: map<nat, seq<byte>>, uniform: Option<nat>, data: seq<byte>)
  {
    uniform.Some? ==>
      && uniform.value in uniforms && |data| <= |uniforms[uniform.value]|
      && uniforms[uniform.value][..|data|] == data
  }

  function BumpedOne(b: BufferEntry, bump: bool): BufferEntry
  {
    if bump then b.(version := b.version + 1) else b
  }

  lemma BindsNext(slots: seq<Option<BufferSlot>>, i: nat)
    requires i < |slots| && slots[i].Some?
    ensures forall h :: Binds(slots[..i + 1], h) <==> Binds(slots[..i], h) || h == slots[i].value.buffer
  {
    var less, more := slots[..i], slots[..i + 1];
    assert more == less + [slots[i]];
    forall h ensures Binds(more, h) <==> Binds(less, h) || h == slots[i].value.buffer {
      if Binds(less, h) {
        var j :| 0 <= j < |less| && less[j].Some? && less[j].value.buffer == h;
        assert more[j] == less[j];
      }
      if Binds(more, h) {
        var j :| 0 <= j < |more| && more[j].Some? && more[j].value.buffer == h;
        assert j < i ==> more[j] == less[j];
      }
      assert more[i] == slots[i];
    }
  }

  /** The least number of groups of this size that covers the items. */
  function DivCeil(items: nat, size: nat): (groups: nat)
    ensures 0 < size ==> items <= groups * size && (groups == 0 || (groups - 1) * size < items)
  {
    if size == 0 then 0 else (items + size - 1) / size
  }

  predicate Idle(items: seq<nat>)
    requires |items| == 3
  {
    items[0] == 0 || items[1] == 0 || items[2] == 0
  }

  predicate TooMany(groups: seq<nat>, limit: nat)
    requires |groups| == 3
  {
    groups[0] > limit || groups[1] > limit || groups[2] > limit
  }

  function GroupsFor(s: State, handle: nat, items: seq<nat>): (groups: seq<nat>)
    requires |items| == 3 && handle in s.bindings && s.bindings[handle].kernel in s.kernels
    ensures |groups| == 3
  {
    var k := s.kernels[s.bindings[handle].kernel];
    if |k.workgroup| == 3 then Workgroups(items, k.workgroup) else [0, 0, 0]
  }

  /** The workgroups in each dimension. */
  function Workgroups(items: seq<nat>, workgroup: seq<nat>): (groups: seq<nat>)
    requires |items| == |workgroup| == 3
    ensures |groups| == 3
    ensures forall i :: 0 <= i < 3 ==> groups[i] == DivCeil(items[i], workgroup[i])
  {
    seq(3, i requires 0 <= i < 3 => DivCeil(items[i], workgroup[i]))
  }

  /** One dispatch was added, with the groups of the slots and nothing else written. */
  ghost predicate Submitted(s: State, t: State, handle: nat, data: seq<byte>, groups: seq<nat>, produced: map<nat, seq<byte>>)
    requires Dispatchable(s, handle, |data|)
  {
    var d := Grouped(s, handle);
    var submission := Submission(d.readonlyGroup, d.writableGroup, d.uniformGroup, data, groups);
    && t.submitted == s.submitted + [submission]
    && Inside(s.memory, d.readonlyGroup) && Inside(s.memory, d.writableGroup)
    && Apart(d.readonlyGroup, d.writableGroup)
    && (d.uniformGroup.Some? ==>
          && d.uniformGroup.value.buffer in t.uniforms && d.uniformGroup.value.size <= |t.uniforms[d.uniformGroup.value.buffer]|
          && t.uniforms[d.uniformGroup.value.buffer][..d.uniformGroup.value.size] == data)
    && t.memory == Executed(s.memory, d.writableGroup, produced)
    && t.buffers == Bumped(s.buffers, d.writable) && t.history == Recorded(s, d.writable, t.memory)
  }

  lemma SubmittedSound(s: State, t: State, handle: nat, data: seq<byte>, groups: seq<nat>, produced: map<nat, seq<byte>>)
    requires Coherent(s) && Dispatchable(s, handle, |data|)
    requires var d := Grouped(s, handle);
             && t.submitted == s.submitted + [Submission(d.readonlyGroup, d.writableGroup, d.uniformGroup, data, groups)]
             && t.memory == Executed(s.memory, d.writableGroup, produced)
             && t.buffers == Bumped(s.buffers, d.writable) && t.history == Recorded(s, d.writable, t.memory)
             && Loaded(t.uniforms, d.uniform, data)
    ensures Submitted(s, t, handle, data, groups, produced)
  {
    var d := s.bindings[handle];
    assert BindingOk(s, d);
    GroupInside(s, d.readonly);
    GroupInside(s, d.writable);
    GroupsApart(s, d.readonly, d.writable);
  }

  function GroupOf(submission: Submission, writable: bool): Option<seq<Range>>
  {
    if writable then submission.writable else submission.readonly
  }

  /** At the place asked for, the group holds that part of the buffer's own allocation. */
  ghost predicate BoundAt(s: State, submission: Submission, p: Place, part: Part)
  {
    && part.buffer in s.buffers && GroupOf(submission, p.writable).Some? && p.slot < |GroupOf(submission, p.writable).value|
    && GroupOf(submission, p.writable).value[p.slot] == Range(s.buffers[part.buffer].buffer, part.offset, Rounded(part.size))
  }

  /** The submission binds exactly what was asked for of this binding. */
  ghost predicate AsAsked(s: State, asked: map<Place, Part>, handle: nat, submission: Submission)
  {
    && (forall p :: p in asked && p.binding == handle ==> BoundAt(s, submission, p, asked[p]))
    && (forall w, i :: GroupOf(submission, w).Some? && 0 <= i < |GroupOf(submission, w).value| ==> Place(handle, w, i) in asked)
  }

  /** A writable slot of this binding was set to a part of this buffer. */
  ghost predicate WrittenBy(asked: map<Place, Part>, handle: nat, h: nat)
  {
    exists i :: Place(handle, true, i) in asked && asked[Place(handle, true, i)].buffer == h
  }

  /** The buffers written have one new version and what the device produced; nothing else
      changes. */
  ghost predicate WroteAsAsked(s: State, t: State, asked: map<Place, Part>, handle: nat, produced: map<nat, seq<byte>>)
  {
    && t.buffers.Keys == s.buffers.Keys && t.memory.Keys == s.memory.Keys
    && (forall h :: h in s.buffers ==>
          t.buffers[h] == s.buffers[h].(version := s.buffers[h].version + if WrittenBy(asked, handle, h) then 1 else 0))
    && (forall d :: d in s.memory ==> t.memory[d] == if WritesTo(s, asked, handle, d) && d in produced && |produced[d]| == |s.memory[d]|
                                                     then produced[d] else s.memory[d])
  }

  /** The allocation belongs to a buffer this binding writes. */
  ghost predicate WritesTo(s: State, asked: map<Place, Part>, handle: nat, d: nat)
  {
    exists h :: h in s.buffers && s.buffers[h].buffer == d && WrittenBy(asked, handle, h)
  }

  lemma BindsWritten(bindings: map<nat, BindingEntry>, asked: map<Place, Part>, handle: nat, h: nat)
    requires Filled(bindings, asked) && handle in bindings
    ensures Binds(bindings[handle].writable, h) <==> WrittenBy(asked, handle, h)
  {
    var slots := Side(bindings[handle], true);
    if Binds(slots, h) {
      var i :| 0 <= i < |slots| && slots[i].Some? && slots[i].value.buffer == h;
      var p := Place(handle, true, i);
      assert p in asked && FilledAt(bindings[handle], p, asked[p]);
    }
    if WrittenBy(asked, handle, h) {
      var i :| Place(handle, true, i) in asked && asked[Place(handle, true, i)].buffer == h;
      assert FilledAt(bindings[handle], Place(handle, true, i), asked[Place(handle, true, i)]);
    }
  }

  lemma WritesAsAsked(s: State, asked: map<Place, Part>, handle: nat, d: nat)
    requires Coherent(s) && Filled(s.bindings, asked) && handle in s.bindings && AllLive(s.buffers, s.bindings[handle].writable)
    ensures Writes(SideGroup(s.buffers, s.bindings[handle].writable), d) <==> WritesTo(s, asked, handle, d)
  {
    var slots := s.bindings[handle].writable;
    WritesIff(s.buffers, slots, d);
    forall h ensures Binds(slots, h) <==> WrittenBy(asked, handle, h) {
      BindsWritten(s.bindings, asked, handle, h);
    }
  }

  /** A group writes an allocation exactly when a slot names a buffer that has it. */
  lemma WritesIff(buffers: map<nat, BufferEntry>, slots: seq<Option<BufferSlot>>, d: nat)
    requires AllLive(buffers, slots)
    ensures Writes(SideGroup(buffers, slots), d) <==> exists h :: h in buffers && buffers[h].buffer == d && Binds(slots, h)
  {
    var group := SideGroup(buffers, slots);
    if Writes(group, d) {
      var i :| 0 <= i < |group.value| && group.value[i].buffer == d;
      var h := slots[i].value.buffer;
      assert h in buffers && buffers[h].buffer == d && Binds(slots, h);
    }
    if h :| h in buffers && buffers[h].buffer == d && Binds(slots, h) {
      var i :| 0 <= i < |slots| && slots[i].Some? && slots[i].value.buffer == h;
      assert group.value[i].buffer == d;
    }
  }

  lemma GroupsAsAsked(s: State, asked: map<Place, Part>, handle: nat, submission: Submission)
    requires Filled(s.bindings, asked) && handle in s.bindings
    requires AllLive(s.buffers, s.bindings[handle].readonly) && AllLive(s.buffers, s.bindings[handle].writable)
    requires submission.readonly == SideGroup(s.buffers, s.bindings[handle].readonly)
    requires submission.writable == SideGroup(s.buffers, s.bindings[handle].writable)
    ensures AsAsked(s, asked, handle, submission)
  {
    var d := s.bindings[handle];
    forall p | p in asked && p.binding == handle ensures BoundAt(s, submission, p, asked[p]) {
      assert FilledAt(d, p, asked[p]);
    }
    forall w, i | GroupOf(submission, w).Some? && 0 <= i < |GroupOf(submission, w).value| ensures Place(handle, w, i) in asked {
      assert Side(d, w)[i].Some?;
    }
  }

  lemma WroteIsAsAsked(s: State, t: State, asked: map<Place, Part>, handle: nat, produced: map<nat, seq<byte>>)
    requires Coherent(s) && Filled(s.bindings, asked) && handle in s.bindings && AllLive(s.buffers, s.bindings[handle].writable)
    requires t.memory == Executed(s.memory, SideGroup(s.buffers, s.bindings[handle].writable), produced)
    requires t.buffers == Bumped(s.buffers, s.bindings[handle].writable)
    ensures WroteAsAsked(s, t, asked, handle, produced)
  {
    forall h ensures Binds(s.bindings[handle].writable, h) <==> WrittenBy(asked, handle, h) {
      BindsWritten(s.bindings, asked, handle, h);
    }
    forall d ensures Writes(SideGroup(s.buffers, s.bindings[handle].writable), d) <==> WritesTo(s, asked, handle, d) {
      WritesAsAsked(s, asked, handle, d);
    }
  }

  /** A dispatch of this binding was submitted and has run. */
  ghost predicate Dispatched(s: State, t: State, asked: map<Place, Part>, handle: nat, data: seq<byte>, groups: seq<nat>,
                             produced: map<nat, seq<byte>>)
  {
    && Dispatchable(s, handle, |data|) && Submitted(s, t, handle, data, groups, produced)
    && |t.submitted| == |s.submitted| + 1 && AsAsked(s, asked, handle, t.submitted[|s.submitted|])
    && WroteAsAsked(s, t, asked, handle, produced)
  }

  /** The state with the groups of the binding built and its uniforms written. */
  ghost predicate Prepared(s: State, t: State, handle: nat, data: seq<byte>)
  {
    && Dispatchable(s, handle, |data|)
    && t == s.(bindings := s.bindings[handle := Grouped(s, handle)], uniforms := t.uniforms)
    && Loaded(t.uniforms, s.bindings[handle].uniform, data)
  }

  lemma DispatchedSound(s: State, p: State, t: State, asked: map<Place, Part>, handle: nat, data: seq<byte>, groups: seq<nat>,
                        produced: map<nat, seq<byte>>)
    requires Coherent(s) && Filled(s.bindings, asked) && Prepared(s, p, handle, data)
    requires var d := Grouped(s, handle);
             t == Ran(p, d.writable, Submission(d.readonlyGroup, d.writableGroup, d.uniformGroup, data, groups), produced)
                  .(kernels := t.kernels)
    ensures Dispatched(s, t, asked, handle, data, groups, produced)
  {
    SubmittedSound(s, t, handle, data, groups, produced);
    GroupsAsAsked(s, asked, handle, t.submitted[|s.submitted|]);
    WroteIsAsAsked(s, t, asked, handle, produced);
  }

  // ----- downloads -----

  /** Why a download is not queued, in the order the reasons are found. */
  function QueueFault(buffers: map<nat, BufferEntry>, handle: nat, offset: u64, size: u64): GpuError
  {
    if handle !in buffers || !CheckedRange(offset, size, buffers[handle].size) || size == 0
       || CopyExtent(offset, size, buffers[handle].size).Err? then RangeFault(buffers, handle, offset, size)
    else if IsPending(buffers, handle) then DownloadPending(handle)
    else DownloadUnread(handle)
  }

  /** The download of this buffer can be read: these bytes, at this offset, of this version. */
  predicate Readable(buffers: map<nat, BufferEntry>, h: nat, offset: nat, length: nat, version: nat)
  {
    && h in buffers && buffers[h].download.Some? && buffers[h].download.value.Ready?
    && buffers[h].download.value.offset == offset && |buffers[h].download.value.bytes| == length
    && buffers[h].download.value.version == version
  }

  /** Everything queued and settled can be read as it was queued. */
  lemma SettledReads(before: map<nat, BufferEntry>, pending: seq<nat>, failing: map<nat, GpuError>,
                     after: map<nat, BufferEntry>, rest: seq<nat>, i: nat)
    requires Listed(before, pending) && SettledUpTo(before, pending, failing, after, rest) && i < FirstFailure(pending, failing)
    requires pending[i] in before && before[pending[i]].download.Some? && before[pending[i]].download.value.Pending?
    requires before[pending[i]].download.value.length <= |before[pending[i]].download.value.staging|
    ensures IsPending(before, pending[i])
    ensures var d := before[pending[i]].download.value; Readable(after, pending[i], d.offset, d.length, d.version)
  {
    ListedAt(before, pending, i);
    var n := FirstFailure(pending, failing);
    assert pending[i] in pending[..n];
  }

  /** A pending download as it is settled: the bytes asked for, of the version queued. */
  function SettledOne(b: BufferEntry): BufferEntry
  {
    if b.download.Some? && b.download.value.Pending? && b.download.value.length <= |b.download.value.staging|
    then var d := b.download.value; b.(download := Some(Ready(d.offset, d.staging[..d.length], d.version)))
    else b
  }

  function Settled(buffers: map<nat, BufferEntry>, done: seq<nat>): map<nat, BufferEntry>
  {
    map h | h in buffers :: if h in done then SettledOne(buffers[h]) else buffers[h]
  }

  predicate FailsAt(pending: seq<nat>, failing: map<nat, GpuError>, n: nat)
  {
    && n <= |pending| && (n < |pending| ==> pending[n] in failing)
    && forall i :: 0 <= i < n ==> pending[i] !in failing
  }

  /** How many downloads map before one fails. */
  function FirstFailure(pending: seq<nat>, failing: map<nat, GpuError>): (n: nat)
    ensures FailsAt(pending, failing, n)
  {
    if |pending| == 0 || pending[0] in failing then 0 else 1 + FirstFailure(pending[1..], failing)
  }

  /** The downloads before the first failure are ready, that one is gone, the rest still wait. */
  ghost predicate SettledUpTo(before: map<nat, BufferEntry>, pending: seq<nat>, failing: map<nat, GpuError>,
                              after: map<nat, BufferEntry>, rest: seq<nat>)
  {
    var n := FirstFailure(pending, failing);
    if n == |pending| then rest == [] && after == Settled(before, pending)
    else
      && rest == pending[n + 1..] && pending[n] in before
      && after == Settled(before, pending[..n])[pending[n] := before[pending[n]].(download := None)]
  }

  function MapOutcome(pending: seq<nat>, failing: map<nat, GpuError>): Result<(), GpuError>
  {
    var n := FirstFailure(pending, failing);
    if n == |pending| then Ok(()) else Err(failing[pending[n]])
  }

  /** After `i` turns of `n` that succeed. */
  ghost predicate Midway(before: map<nat, BufferEntry>, all: seq<nat>, n: nat, i: nat,
                         buffers: map<nat, BufferEntry>, rest: seq<nat>)
  {
    i <= n && i <= |all| && rest == all[i..] && buffers == Settled(before, all[..i])
  }

  lemma MidwayStarts(before: map<nat, BufferEntry>, all: seq<nat>, n: nat)
    ensures Midway(before, all, n, 0, before, all)
  {
    assert all[0..] == all && all[..0] == [];
    assert Settled(before, []) == before;
  }

  lemma MidwayFails(before: map<nat, BufferEntry>, all: seq<nat>, failing: map<nat, GpuError>,
                    buffers: map<nat, BufferEntry>, rest: seq<nat>)
    requires var n := FirstFailure(all, failing);
             && n < |all| && rest == all[n + 1..] && all[n] in before
             && buffers == Settled(before, all[..n])[all[n] := before[all[n]].(download := None)]
    ensures SettledUpTo(before, all, failing, buffers, rest)
    ensures var n := FirstFailure(all, failing); n < |all| && MapOutcome(all, failing) == Err(failing[all[n]])
  {
  }

  lemma MidwayEnds(before: map<nat, BufferEntry>, all: seq<nat>, failing: map<nat, GpuError>, i: nat,
                   buffers: map<nat, BufferEntry>)
    requires Midway(before, all, FirstFailure(all, failing), i, buffers, [])
    ensures SettledUpTo(before, all, failing, buffers, []) && MapOutcome(all, failing) == Ok(())
  {
    assert |all[i..]| == |all| - i;
    assert all[..i] == all;
  }

  lemma ListedQueue(buffers: map<nat, BufferEntry>, pending: seq<nat>, h: nat, d: Download)
    requires Listed(buffers, pending) && h in buffers && !IsPending(buffers, h) && d.Pending?
    ensures Listed(buffers[h := buffers[h].(download := Some(d))], pending + [h])
  {
    var after := buffers[h := buffers[h].(download := Some(d))];
    forall g ensures g in pending + [h] <==> IsPending(after, g) {
      assert g in pending <==> IsPending(buffers, g);
    }
    assert h !in pending;
  }

  lemma ListedSettle(buffers: map<nat, BufferEntry>, pending: seq<nat>, b: BufferEntry)
    requires Listed(buffers, pending) && |pending| > 0
    requires b.download.None? || b.download.value.Ready?
    ensures pending[0] in buffers && Listed(buffers[pending[0] := b], pending[1..])
  {
    var h := pending[0];
    assert h in pending;
    var after := buffers[h := b];
    forall g ensures g in pending[1..] <==> IsPending(after, g) {
      assert g in pending <==> g == h || g in pending[1..];
      assert g in pending <==> IsPending(buffers, g);
      assert h !in pending[1..];
    }
  }

  lemma ListedRead(buffers: map<nat, BufferEntry>, pending: seq<nat>, h: nat, b: BufferEntry)
    requires Listed(buffers, pending) && h in buffers && !IsPending(buffers, h) && b.download.None?
    ensures Listed(buffers[h := b], pending)
  {
    forall g ensures g in pending <==> IsPending(buffers[h := b], g) {
      assert g in pending <==> IsPending(buffers, g);
    }
  }

  /** The first listed buffer with its download settled. */
  lemma SettleKeeps(s: State, b: BufferEntry)
    requires Coherent(s) && |s.pending| > 0 && s.pending[0] in s.buffers
    requires b == s.buffers[s.pending[0]].(download := b.download) && s.pending[0] in s.history
    requires b.download.Some? ==> b.download.value.Ready? && Captured(b.download.value, s.history[s.pending[0]])
    ensures Coherent(s.(buffers := s.buffers[s.pending[0] := b], pending := s.pending[1..]))
  {
    var h := s.pending[0];
    var t := s.(buffers := s.buffers[h := b], pending := s.pending[1..]);
    assert BufferOk(s, h);
    ListedSettle(s.buffers, s.pending, b);
    TouchKeeps(s, t, h);
  }

  lemma QueueKeeps(s: State, h: nat, d: Download)
    requires Coherent(s) && h in s.buffers && s.buffers[h].download.None? && d.Pending?
    requires h in s.history && Captured(d, s.history[h])
    ensures Coherent(s.(buffers := s.buffers[h := s.buffers[h].(download := Some(d))], pending := s.pending + [h]))
  {
    var t := s.(buffers := s.buffers[h := s.buffers[h].(download := Some(d))], pending := s.pending + [h]);
    assert BufferOk(s, h);
    ListedQueue(s.buffers, s.pending, h, d);
    TouchKeeps(s, t, h);
  }

  lemma ReadKeeps(s: State, h: nat, b: BufferEntry)
    requires Coherent(s) && h in s.buffers && !IsPending(s.buffers, h)
    requires b == s.buffers[h].(download := None, completed := b.completed)
    ensures Coherent(s.(buffers := s.buffers[h := b]))
  {
    var t := s.(buffers := s.buffers[h := b]);
    assert BufferOk(s, h);
    ListedRead(s.buffers, s.pending, h, b);
    TouchKeeps(s, t, h);
  }

  lemma ListedAt(buffers: map<nat, BufferEntry>, pending: seq<nat>, i: nat)
    requires Listed(buffers, pending) && i < |pending|
    ensures IsPending(buffers, pending[i])
  {
    assert pending[i] in pending;
  }

  lemma SettleNext(buffers: map<nat, BufferEntry>, pending: seq<nat>, i: nat)
    requires i < |pending| && NoRepeats(pending) && pending[i] in buffers
    ensures pending[i] in Settled(buffers, pending[..i]) && Settled(buffers, pending[..i])[pending[i]] == buffers[pending[i]]
    ensures Settled(buffers, pending[..i + 1]) == Settled(buffers, pending[..i])[pending[i] := SettledOne(buffers[pending[i]])]
  {
    assert pending[..i + 1] == pending[..i] + [pending[i]];
    assert pending[i] !in pending[..i];
  }

  class GpuContext {
    const limits: Limits
    /** Public handles come from the counter every context shares. */
    const counter: HandleCounter
    var buffers: map<nat, BufferEntry>
    var kernels: map<nat, KernelEntry>
    var bindings: map<nat, BindingEntry>
    var pendingDownloads: seq<nat>
    /** What the device holds: allocations, uniform allocations and the work submitted. */
    var memory: map<nat, seq<byte>>
    var uniforms: map<nat, seq<byte>>
    var submitted: seq<Submission>
    ghost var owner: map<nat, nat>
    ghost var history: map<nat, seq<seq<byte>>>
    /** What each slot was last set to. */
    ghost var asked: map<Place, Part>

    ghost function S(): State
      reads this, counter
    {
      State(buffers, kernels, bindings, pendingDownloads, memory, uniforms, submitted, counter.next, owner, history)
    }

    ghost predicate Valid()
      reads this, counter
    {
      Coherent(S()) && Filled(bindings, asked)
    }

    constructor (limits: Limits, counter: HandleCounter)
      ensures Valid() && this.limits == limits && this.counter == counter
      ensures S() == State(map[], map[], map[], [], map[], map[], [], counter.next, map[], map[]) && asked == map[]
    {
      this.limits, this.counter := limits, counter;
      buffers, kernels, bindings, pendingDownloads := map[], map[], map[], [];
      memory, uniforms, submitted := map[], map[], [];
      owner, history, asked := map[], map[], map[];
    }

    /** `stored` is whether the arena has room and `device` the new allocation. */
    method CreateBuffer(size: u64, stored: bool, device: nat) returns (r: Result<nat, GpuError>)
      requires Valid() && device !in memory
      modifies this, counter
      ensures Valid() && asked == old(asked)
      ensures r.Ok? <==> stored && old(counter.next) < U64_MAX && 0 < size <= limits.bufferSize && Rounded(size) <= U64_MAX
      ensures r.Err? ==>
                && S() == old(S())
                && r.error == if 0 < size <= limits.bufferSize && Rounded(size) <= U64_MAX then Capacity else InvalidArgument
      ensures r.Ok? ==>
                && r.value == old(counter.next) && r.value !in old(buffers)
                && S() == Created(old(S()), r.value, device, size, Zeros(Rounded(size)))
                && buffers == old(buffers)[r.value := BufferEntry(device, size, None, 0, None)]
                && memory == old(memory)[device := Zeros(Rounded(size))]
    {
      if size == 0 || size > limits.bufferSize {
        return Err(InvalidArgument);
      }
      var extent := AlignUp(size);
      if extent.Err? {
        return Err(extent.error);
      }
      if !stored {
        return Err(Capacity);
      }
      ghost var s := S();
      var drawn := counter.Draw();
      if drawn.None? {
        return Err(Capacity);
      }
      var contents := Zeros(extent.value);
      CreateKeeps(s, drawn.value, device, size, contents);
      memory := memory[device := contents];
      buffers := buffers[drawn.value := BufferEntry(device, size, None, 0, None)];
      owner, history := owner[device := drawn.value], history[drawn.value := [contents]];
      assert S() == Created(s, drawn.value, device, size, contents);
      return Ok(drawn.value);
    }

    /** Refused exactly while a download is pending. */
    method ReleaseBuffer(handle: nat) returns (r: Result<(), GpuError>)
      requires Valid()
      modifies this`buffers
      ensures Valid()
      ensures r == if handle !in old(buffers) then Err(StaleHandle(handle))
                   else if IsPending(old(buffers), handle) then Err(DownloadPending(handle)) else Ok(())
      ensures buffers == if r.Ok? then old(buffers) - {handle} else old(buffers)
    {
      if handle !in buffers {
        return Err(StaleHandle(handle));
      }
      if buffers[handle].download.Some? && buffers[handle].download.value.Pending? {
        return Err(DownloadPending(handle));
      }
      ReleaseKeeps(S(), handle);
      buffers := buffers - {handle};
      return Ok(());
    }

    /** Writes into the allocation and counts a version. */
    method Store(handle: nat, offset: nat, bytes: seq<byte>)
      requires Valid() && handle in buffers && handle in history && buffers[handle].buffer in memory
      requires offset + |bytes| <= |memory[buffers[handle].buffer]|
      modifies this`buffers, this`memory, this`history
      ensures Valid()
      ensures var b := old(buffers)[handle];
              && buffers == old(buffers)[handle := b.(version := b.version + 1)]
              && memory == old(memory)[b.buffer := Overwritten(old(memory)[b.buffer], offset, bytes)]
              && history == old(history)[handle := old(history)[handle] + [memory[b.buffer]]]
    {
      var entry := buffers[handle];
      var contents := Overwritten(memory[entry.buffer], offset, bytes);
      ghost var goal := Stored(S(), handle, contents);
      StoredKeeps(S(), handle, contents);
      history := goal.history;
      memory := memory[entry.buffer := contents];
      buffers := buffers[handle := entry.(version := entry.version + 1)];
      assert S() == goal;
    }

    /** How many bytes an upload moves, once its range is found good. */
    method UploadExtent(handle: nat, offset: u64, length: u64) returns (r: Result<u64, GpuError>)
      requires Valid()
      ensures r.Ok? <==> handle in buffers && CheckedRange(offset, length, buffers[handle].size)
                         && CopyExtent(offset, length, buffers[handle].size).Ok?
      ensures r.Ok? ==>
                && handle in history && buffers[handle].buffer in memory && buffers[handle].size <= |memory[buffers[handle].buffer]|
                && length <= r.value && offset + r.value <= |memory[buffers[handle].buffer]|
                && (r.value == length || offset + length == buffers[handle].size)
      ensures r.Err? ==> r.error == RangeFault(buffers, handle, offset, length)
    {
      if handle !in buffers {
        return Err(StaleHandle(handle));
      }
      var entry := buffers[handle];
      assert BufferOk(S(), handle);
      if !CheckedRange(offset, length, entry.size) {
        return Err(OutOfBounds);
      }
      ExtentInside(offset, length, entry.size);
      return CopyExtent(offset, length, entry.size);
    }

    /** A nonempty upload replaces its bytes, keeps the rest and makes one new version. */
    method Upload(handle: nat, offset: u64, bytes: seq<byte>) returns (r: Result<(), GpuError>)
      requires Valid() && |bytes| <= U64_MAX
      modifies this`buffers, this`memory, this`history
      ensures Valid()
      ensures r.Ok? <==> handle in old(buffers) && CheckedRange(offset, |bytes|, old(buffers)[handle].size)
                         && CopyExtent(offset, |bytes|, old(buffers)[handle].size).Ok?
      ensures r.Err? || bytes == [] ==> S() == old(S())
      ensures r.Err? ==> r.error == RangeFault(buffers, handle, offset, |bytes|)
      ensures r.Ok? && bytes != [] ==>
                var b := old(buffers)[handle];
                && buffers == old(buffers)[handle := b.(version := b.version + 1)]
                && b.buffer in memory && b.buffer in old(memory) && |memory[b.buffer]| == |old(memory)[b.buffer]|
                && memory == old(memory)[b.buffer := memory[b.buffer]]
                && memory[b.buffer][offset..offset + |bytes|] == bytes
                && memory[b.buffer][..offset] == old(memory)[b.buffer][..offset]
                && memory[b.buffer][offset + |bytes|..b.size] == old(memory)[b.buffer][offset + |bytes|..b.size]
                && history == old(history)[handle := old(history)[handle] + [memory[b.buffer]]]
    {
      var copied := UploadExtent(handle, offset, |bytes|);
      if copied.Err? {
        return Err(copied.error);
      }
      ghost var s := S();
      var entry := buffers[handle];
      if bytes != [] {
        var padded := bytes + Zeros(copied.value - |bytes|);
        Store(handle, offset, padded);
        PaddedOverwrite(s.memory[entry.buffer], offset, bytes, copied.value, entry.size);
      }
      return Ok(());
    }

    method ValidateKernel(k: KernelEntry) returns (valid: bool)
      requires |k.workgroup| == 3 && |limits.kernel.workgroup| == 3
      ensures valid == KernelAllowed(limits.kernel, k)
      ensures valid ==> KernelOk(k)
    {
      var l := limits.kernel;
      if k.uniform % 4 != 0 || k.uniform > l.uniformSize {
        return false;
      }
      var x, y, z := k.workgroup[0], k.workgroup[1], k.workgroup[2];
      if x == 0 || y == 0 || z == 0 {
        return false;
      }
      if x > l.workgroup[0] || y > l.workgroup[1] || z > l.workgroup[2] || x * y * z > l.invocations {
        return false;
      }
      if || k.readonly > l.storageBuffers || k.writable > l.storageBuffers
         || k.readonly > l.bindingsPerGroup || k.writable > l.bindingsPerGroup
         || SaturatingAdd(k.readonly, k.writable) > l.storageBuffers {
        return false;
      }
      return GroupsUsed(k) <= l.bindGroups;
    }

    /** `accepted` is whether the module and its entry point pass. */
    method CreateKernel(k: KernelEntry, accepted: bool, stored: bool) returns (r: Result<nat, GpuError>)
      requires Valid() && |k.workgroup| == 3 && |limits.kernel.workgroup| == 3 && k.dispatches == 0
      modifies this`kernels, counter
      ensures Valid()
      ensures r.Ok? == (accepted && stored && old(counter.next) < U64_MAX && KernelAllowed(limits.kernel, k))
      ensures r.Err? ==> S() == old(S()) && r.error == if accepted && KernelAllowed(limits.kernel, k) then Capacity else InvalidArgument
      ensures r.Ok? ==>
                && r.value == old(counter.next) && r.value !in old(kernels)
                && S() == WithKernel(old(S()), r.value, k) && kernels == old(kernels)[r.value := k]
    {
      var valid := ValidateKernel(k);
      if !valid || !accepted {
        return Err(InvalidArgument);
      }
      if !stored {
        return Err(Capacity);
      }
      ghost var s := S();
      var drawn := counter.Draw();
      if drawn.None? {
        return Err(Capacity);
      }
      KernelKeeps(s, drawn.value, k);
      kernels := kernels[drawn.value := k];
      assert S() == WithKernel(s, drawn.value, k);
      return Ok(drawn.value);
    }

    method ReleaseKernel(handle: nat) returns (r: Result<(), GpuError>)
      requires Valid()
      modifies this`kernels
      ensures Valid()
      ensures r == if handle in old(kernels) then Ok(()) else Err(StaleHandle(handle))
      ensures kernels == old(kernels) - {handle}
    {
      if handle !in kernels {
        return Err(StaleHandle(handle));
      }
      KernelReleaseKeeps(S(), handle);
      kernels := kernels - {handle};
      return Ok(());
    }

    /** A binding with every slot empty and no group built. */
    method CreateBindings(kernel: nat, stored: bool, device: nat) returns (r: Result<nat, GpuError>)
      requires Valid() && device !in uniforms
      modifies this`bindings, this`uniforms, counter
      ensures Valid()
      ensures r.Err? <==> kernel !in kernels || !stored || old(counter.next) == U64_MAX
      ensures r.Err? ==> S() == old(S()) && r.error == if kernel !in kernels then StaleHandle(kernel) else Capacity
      ensures r.Ok? ==>
                && r.value == old(counter.next) && r.value !in old(bindings)
                && r.value in bindings && bindings == old(bindings)[r.value := bindings[r.value]]
                && S() == old(S()).(bindings := bindings, uniforms := uniforms, next := r.value + 1)
                && bindings[r.value].kernel == kernel
                && (forall w, i :: 0 <= i < |Side(bindings[r.value], w)| ==> Side(bindings[r.value], w)[i].None?)
    {
      if kernel !in kernels {
        return Err(StaleHandle(kernel));
      }
      if !stored {
        return Err(Capacity);
      }
      ghost var s := S();
      var drawn := counter.Draw();
      if drawn.None? {
        return Err(Capacity);
      }
      BindNew(kernel, drawn.value, device, s);
      return Ok(drawn.value);
    }

    /** The binding itself, under a handle just drawn; `s` is the state before the draw. */
    method BindNew(kernel: nat, handle: nat, device: nat, ghost s: State)
      requires Coherent(s) && Filled(bindings, asked) && S() == s.(next := handle + 1) && handle == s.next
      requires kernel in kernels && device !in uniforms
      modifies this`bindings, this`uniforms
      ensures Valid() && handle !in old(bindings)
      ensures handle in bindings && bindings == old(bindings)[handle := bindings[handle]]
      ensures bindings[handle].kernel == kernel
      ensures forall w, i :: 0 <= i < |Side(bindings[handle], w)| ==> Side(bindings[handle], w)[i].None?
    {
      var entry, blocks := NewEntry(kernel, kernels[kernel], device), Allocated(uniforms, kernels[kernel], device);
      NewEntryUnset(kernels, uniforms, kernel, device);
      NewBindingKeeps(s, handle, entry, blocks);
      FilledNew(bindings, asked, handle, entry);
      bindings, uniforms := bindings[handle := entry], blocks;
      assert S() == WithBinding(s, handle, entry, blocks);
    }

    method ReleaseBindings(handle: nat) returns (r: Result<(), GpuError>)
      requires Valid()
      modifies this`bindings, this`asked
      ensures Valid()
      ensures r == if handle in old(bindings) then Ok(()) else Err(StaleHandle(handle))
      ensures bindings == old(bindings) - {handle}
      ensures asked == if r.Ok? then AskedElsewhere(old(asked), handle) else old(asked)
    {
      if handle !in bindings {
        return Err(StaleHandle(handle));
      }
      BindingReleaseKeeps(S(), handle);
      FilledLess(bindings, asked, handle);
      bindings, asked := bindings - {handle}, AskedElsewhere(asked, handle);
      return Ok(());
    }

    /** The bytes the slot would stand for, or why it may not be set. */
    method CheckSlot(handle: nat, writable: bool, slot: nat, buffer: nat, offset: u64, size: u64) returns (r: Result<u64, GpuError>)
      requires Valid() && limits.offsetAlignment > 0
      ensures r.Ok? <==> Settable(S(), limits, handle, writable, slot, buffer, offset, size)
      ensures r.Ok? ==> r.value == Rounded(size) && SlotOk(buffers, counter.next, BufferSlot(buffer, offset, r.value))
      ensures r.Err? ==> r.error == SlotFault(S(), limits, handle, buffer, offset, size)
    {
      if buffer !in buffers {
        return Err(StaleHandle(buffer));
      }
      assert BufferOk(S(), buffer);
      var capacity := buffers[buffer].size;
      if !CheckedRange(offset, size, capacity) {
        return Err(OutOfBounds);
      }
      if size == 0 {
        return Err(InvalidArgument);
      }
      ExtentInside(offset, size, capacity);
      var extent := CopyExtent(offset, size, capacity);
      if extent.Err? {
        return Err(extent.error);
      }
      if offset % limits.offsetAlignment != 0 || extent.value > limits.bindingSize {
        return Err(InvalidArgument);
      }
      if handle !in bindings {
        return Err(StaleHandle(handle));
      }
      var entry := bindings[handle];
      if Binds(if writable then entry.readonly else entry.writable, buffer) {
        return Err(InvalidArgument);
      }
      if slot >= if writable then |entry.writable| else |entry.readonly| {
        return Err(InvalidArgument);
      }
      return extent;
    }

    /** Sets the slot and drops that side's group, or changes nothing. */
    method SetBufferSlot(handle: nat, writable: bool, slot: nat, buffer: nat, offset: u64, size: u64) returns (r: Result<(), GpuError>)
      requires Valid() && limits.offsetAlignment > 0
      modifies this`bindings, this`asked
      ensures Valid()
      ensures r.Err? ==> S() == old(S()) && asked == old(asked) && r.error == SlotFault(S(), limits, handle, buffer, offset, size)
      ensures r.Ok? <==> Settable(old(S()), limits, handle, writable, slot, buffer, offset, size)
      ensures r.Ok? ==>
                && asked == old(asked)[Place(handle, writable, slot) := Part(buffer, offset, size)]
                && bindings == old(bindings)[handle := SlotSet(old(bindings)[handle], writable, slot, BufferSlot(buffer, offset, Rounded(size)))]
    {
      var extent := CheckSlot(handle, writable, slot, buffer, offset, size);
      if extent.Err? {
        return Err(extent.error);
      }
      var entry := bindings[handle];
      var value := BufferSlot(buffer, offset, extent.value);
      SlotKeeps(S(), entry, writable, slot, value);
      FilledSet(bindings, asked, Place(handle, writable, slot), Part(buffer, offset, size));
      asked := asked[Place(handle, writable, slot) := Part(buffer, offset, size)];
      Rebind(handle, SlotSet(entry, writable, slot, value));
      return Ok(());
    }

    /** Replaces a binding by one that is as good. */
    method Rebind(handle: nat, entry: BindingEntry)
      requires Coherent(S()) && handle in bindings && BindingOk(S(), entry) && Filled(bindings[handle := entry], asked)
      modifies this`bindings
      ensures Valid() && bindings == old(bindings)[handle := entry]
    {
      ghost var s := S();
      bindings := bindings[handle := entry];
      BindingSteady(s, S(), entry);
      BindingKeeps(s, S(), handle);
    }

    method ValidateStorageSlots(slots: seq<Option<BufferSlot>>, writable: bool) returns (r: Result<(), GpuError>)
      ensures r.Ok? <==> AllLive(buffers, slots)
      ensures r.Err? ==> r.error == SlotsFault(buffers, slots, writable)
    {
      for i := 0 to |slots|
        invariant AllLive(buffers, slots[..i]) && FirstDead(buffers, slots, 0) == FirstDead(buffers, slots, i)
      {
        if slots[i].None? {
          return Err(MissingBinding(writable, i));
        }
        if slots[i].value.buffer !in buffers {
          return Err(StaleHandle(slots[i].value.buffer));
        }
      }
      return Ok(());
    }

    method MakeStorageGroup(slots: seq<Option<BufferSlot>>) returns (group: Option<seq<Range>>)
      requires AllLive(buffers, slots)
      ensures group == SideGroup(buffers, slots)
      ensures group.None? <==> |slots| == 0
      ensures group.Some? ==> |group.value| == |slots|
      ensures group.Some? ==> forall i :: 0 <= i < |slots| ==>
                && group.value[i].buffer == buffers[slots[i].value.buffer].buffer
                && group.value[i].offset == slots[i].value.offset && group.value[i].size == slots[i].value.size
    {
      if |slots| == 0 {
        return None;
      }
      var entries := [];
      for i := 0 to |slots|
        invariant |entries| == i && forall j :: 0 <= j < i ==> entries[j] == Entry(buffers, slots[j].value)
      {
        entries := entries + [Entry(buffers, slots[i].value)];
      }
      assert entries == SideGroup(buffers, slots).value;
      return Some(entries);
    }

    /** Every check a dispatch makes before it builds anything. */
    method CheckDispatch(handle: nat, size: nat) returns (r: Result<(), GpuError>)
      requires Valid()
      ensures r.Ok? <==> Dispatchable(S(), handle, size)
      ensures r.Err? ==> r.error == DispatchFault(S(), handle, size)
    {
      if handle !in bindings {
        return Err(StaleHandle(handle));
      }
      var d := bindings[handle];
      if d.kernel !in kernels {
        return Err(StaleHandle(d.kernel));
      }
      if size != kernels[d.kernel].uniform {
        return Err(InvalidArgument);
      }
      assert size % 4 == 0;
      r := ValidateStorageSlots(d.readonly, false);
      if r.Ok? {
        r := ValidateStorageSlots(d.writable, true);
      }
    }

    /** The cached group, or a new one when there is none. */
    method SideOf(cached: Option<seq<Range>>, slots: seq<Option<BufferSlot>>) returns (group: Option<seq<Range>>)
      requires AllLive(buffers, slots) && GroupOk(buffers, slots, cached)
      ensures group == SideGroup(buffers, slots)
    {
      group := cached;
      if group.None? {
        group := MakeStorageGroup(slots);
      } else {
        CacheIsCurrent(buffers, slots, group);
      }
    }

    /** Builds the groups that are missing; the others are already those of the slots. */
    method BuildGroups(handle: nat, ghost size: nat)
      requires Valid() && Dispatchable(S(), handle, size)
      modifies this`bindings
      ensures bindings == old(bindings)[handle := Grouped(old(S()), handle)]
      ensures Valid()
    {
      ghost var s := S();
      var d := bindings[handle];
      assert BindingOk(s, d);
      var readonly := SideOf(d.readonlyGroup, d.readonly);
      var writable := SideOf(d.writableGroup, d.writable);
      var uniform := d.uniformGroup;
      if uniform.None? && d.uniform.Some? {
        uniform := Some(Range(d.uniform.value, 0, kernels[d.kernel].uniform));
      }
      GroupedOk(s, handle, size);
      FilledSame(bindings, asked, handle, Grouped(s, handle));
      assert Grouped(s, handle) == d.(readonlyGroup := readonly, writableGroup := writable, uniformGroup := uniform);
      Rebind(handle, d.(readonlyGroup := readonly, writableGroup := writable, uniformGroup := uniform));
    }

    method WriteUniforms(handle: nat, data: seq<byte>)
      requires Valid() && Dispatchable(S(), handle, |data|)
      modifies this`uniforms
      ensures Valid()
      ensures bindings[handle].uniform.None? <==> data == []
      ensures Loaded(uniforms, bindings[handle].uniform, data)
    {
      var d := bindings[handle];
      assert BindingOk(S(), d);
      ghost var s := S();
      if d.uniform.Some? {
        uniforms := uniforms[d.uniform.value := Overwritten(uniforms[d.uniform.value], 0, data)];
      }
      BindingSteady(s, S(), d);
      assert bindings == s.bindings[handle := d];
      BindingKeeps(s, S(), handle);
    }

    /** One logical version per dispatch, even when writable slots name a buffer twice. */
    method BumpVersions(writes: seq<Option<BufferSlot>>)
      requires AllLive(buffers, writes)
      modifies this`buffers
      ensures buffers == Bumped(old(buffers), writes)
    {
      ghost var before := buffers;
      var changed: set<nat> := {};
      for i := 0 to |writes|
        invariant forall h :: h in changed <==> Binds(writes[..i], h)
        invariant buffers.Keys == before.Keys
        invariant forall h :: h in before ==> buffers[h] == BumpedOne(before[h], h in changed)
      {
        var h := writes[i].value.buffer;
        BindsNext(writes, i);
        if h !in changed {
          changed := changed + {h};
          buffers := buffers[h := buffers[h].(version := buffers[h].version + 1)];
        }
      }
      assert writes[..|writes|] == writes;
    }

    /** Submits the work and gives every buffer it writes its new version. */
    method Run(writes: seq<Option<BufferSlot>>, submission: Submission, produced: map<nat, seq<byte>>)
      requires Valid() && AllLive(buffers, writes) && submission.writable == SideGroup(buffers, writes)
      modifies this`buffers, this`memory, this`submitted, this`history
      ensures Valid()
      ensures S() == Ran(old(S()), writes, submission, produced)
    {
      ghost var goal := Ran(S(), writes, submission, produced);
      RanKeeps(S(), writes, submission, produced);
      history := goal.history;
      submitted := submitted + [submission];
      memory := Executed(memory, submission.writable, produced);
      BumpVersions(writes);
      assert S() == goal;
    }

    method CountDispatch(handle: nat)
      requires Valid() && handle in kernels
      modifies this`kernels
      ensures Valid()
      ensures kernels == old(kernels)[handle := old(kernels)[handle].(dispatches := old(kernels)[handle].dispatches + 1)]
    {
      var k := kernels[handle];
      CountKeeps(S(), handle, k.(dispatches := k.dispatches + 1));
      kernels := kernels[handle := k.(dispatches := k.dispatches + 1)];
    }

    /** The second half of a dispatch, `s` being the state before the first. */
    method Submit(handle: nat, groups: seq<nat>, data: seq<byte>, produced: map<nat, seq<byte>>, ghost s: State)
      requires Valid() && Coherent(s) && Filled(s.bindings, asked) && Prepared(s, S(), handle, data)
      modifies this`buffers, this`memory, this`submitted, this`history, this`kernels
      ensures Valid() && Dispatched(s, S(), asked, handle, data, groups, produced)
    {
      ghost var p := S();
      var d := bindings[handle];
      Run(d.writable, Submission(d.readonlyGroup, d.writableGroup, d.uniformGroup, data, groups), produced);
      CountDispatch(d.kernel);
      DispatchedSound(s, p, S(), asked, handle, data, groups, produced);
    }

    /** The first half: every check, the groups and the uniforms. */
    method Prepare(handle: nat, data: seq<byte>) returns (r: Result<(), GpuError>)
      requires Valid()
      modifies this`bindings, this`uniforms
      ensures Valid()
      ensures r.Ok? <==> Dispatchable(old(S()), handle, |data|)
      ensures r.Err? ==> S() == old(S()) && r.error == DispatchFault(S(), handle, |data|)
      ensures r.Ok? ==> Prepared(old(S()), S(), handle, data)
    {
      r := CheckDispatch(handle, |data|);
      if r.Ok? {
        BuildGroups(handle, |data|);
        WriteUniforms(handle, data);
      }
    }

    /** A dispatch that answers an error has submitted nothing; one that submits hands the
        device what the slots were last set to, over live buffers, inside their allocations,
        with nothing both read and written. */
    method Dispatch(handle: nat, items: seq<nat>, data: seq<byte>, produced: map<nat, seq<byte>>) returns (r: Result<(), GpuError>)
      requires Valid() && |items| == 3
      modifies this
      ensures Valid() && owner == old(owner) && pendingDownloads == old(pendingDownloads) && asked == old(asked)
      ensures !Dispatchable(old(S()), handle, |data|) ==> r == Err(DispatchFault(old(S()), handle, |data|)) && S() == old(S())
      ensures Dispatchable(old(S()), handle, |data|) ==>
                && bindings == old(bindings)[handle := Grouped(old(S()), handle)]
                && (r.Err? <==> !Idle(items) && TooMany(GroupsFor(old(S()), handle, items), limits.workgroups))
                && (r.Err? ==> r.error == InvalidArgument)
                && (r.Err? || Idle(items) ==>
                      submitted == old(submitted) && memory == old(memory) && buffers == old(buffers) && history == old(history))
                && (r.Ok? && !Idle(items) ==>
                      Dispatched(old(S()), S(), asked, handle, data, GroupsFor(old(S()), handle, items), produced))
    {
      ghost var s := S();
      var prepared := Prepare(handle, data);
      if prepared.Err? || Idle(items) {
        return prepared;
      }
      assert KernelOk(kernels[bindings[handle].kernel]);
      var groups := Workgroups(items, kernels[bindings[handle].kernel].workgroup);
      if TooMany(groups, limits.workgroups) {
        return Err(InvalidArgument);
      }
      Submit(handle, groups, data, produced, s);
      return Ok(());
    }

    /** Queues a copy of the bytes as they are now, named by the version they belong to. */
    method QueueDownload(handle: nat, offset: u64, size: u64) returns (r: Result<(), GpuError>)
      requires Valid()
      modifies this`buffers, this`pendingDownloads
      ensures Valid()
      ensures r.Ok? <==>
                && handle in old(buffers) && CheckedRange(offset, size, old(buffers)[handle].size) && 0 < size
                && CopyExtent(offset, size, old(buffers)[handle].size).Ok? && old(buffers)[handle].download.None?
      ensures r.Err? ==> S() == old(S()) && r.error == QueueFault(buffers, handle, offset, size)
      ensures r.Ok? ==>
                && pendingDownloads == old(pendingDownloads) + [handle]
                && handle in buffers && IsPending(buffers, handle)
                && buffers == old(buffers)[handle := old(buffers)[handle].(download := buffers[handle].download)]
                && buffers[handle].buffer in memory && offset + size <= |memory[buffers[handle].buffer]|
                && var d := buffers[handle].download.value;
                   && d.offset == offset && d.length == size && d.version == buffers[handle].version
                   && size <= |d.staging| && d.staging[..size] == memory[buffers[handle].buffer][offset..offset + size]
    {
      if handle !in buffers {
        return Err(StaleHandle(handle));
      }
      ghost var s := S();
      var entry := buffers[handle];
      assert BufferOk(s, handle);
      if !CheckedRange(offset, size, entry.size) {
        return Err(OutOfBounds);
      }
      if size == 0 {
        return Err(InvalidArgument);
      }
      ExtentInside(offset, size, entry.size);
      var extent := CopyExtent(offset, size, entry.size);
      if extent.Err? {
        return Err(extent.error);
      }
      if entry.download.Some? {
        return Err(if entry.download.value.Pending? then DownloadPending(handle) else DownloadUnread(handle));
      }
      var d := Pending(memory[entry.buffer][offset..offset + extent.value], offset, size, entry.version);
      assert d.staging[..size] == memory[entry.buffer][offset..offset + size];
      ghost var goal := s.(buffers := s.buffers[handle := entry.(download := Some(d))], pending := s.pending + [handle]);
      QueueKeeps(s, handle, d);
      buffers := buffers[handle := entry.(download := Some(d))];
      pendingDownloads := pendingDownloads + [handle];
      assert S() == goal;
      return Ok(());
    }

    /** One turn of `synchronize`: the first listed download is settled either way, and its
        buffer is always found pending. */
    method SettleFirst(failing: map<nat, GpuError>) returns (r: Result<(), GpuError>)
      requires Valid() && |pendingDownloads| > 0
      modifies this`buffers, this`pendingDownloads
      ensures Valid() && pendingDownloads == old(pendingDownloads)[1..]
      ensures var h := old(pendingDownloads)[0];
              && IsPending(old(buffers), h)
              && (h in failing ==> r == Err(failing[h]) && buffers == old(buffers)[h := old(buffers)[h].(download := None)])
              && (h !in failing ==>
                    && r == Ok(()) && buffers == old(buffers)[h := SettledOne(old(buffers)[h])]
                    && var d := old(buffers)[h].download.value; Readable(buffers, h, d.offset, d.length, d.version))
    {
      ghost var s := S();
      var handle := pendingDownloads[0];
      assert handle in pendingDownloads;
      assert BufferOk(s, handle);
      var entry := buffers[handle];
      var pending := entry.download.value;
      assert pending.Pending?;
      var ready := Ready(pending.offset, pending.staging[..pending.length], pending.version);
      SettleWith(entry.(download := if handle in failing then None else Some(ready)));
      return if handle in failing then Err(failing[handle]) else Ok(());
    }

    /** Takes the first download off the list, its buffer's entry replaced. */
    method SettleWith(entry: BufferEntry)
      requires Valid() && |pendingDownloads| > 0 && pendingDownloads[0] in buffers && pendingDownloads[0] in history
      requires entry == buffers[pendingDownloads[0]].(download := entry.download)
      requires entry.download.Some? ==> entry.download.value.Ready? && Captured(entry.download.value, history[pendingDownloads[0]])
      modifies this`buffers, this`pendingDownloads
      ensures Valid() && pendingDownloads == old(pendingDownloads)[1..]
      ensures buffers == old(buffers)[old(pendingDownloads)[0] := entry]
    {
      ghost var s := S();
      ghost var goal := s.(buffers := s.buffers[s.pending[0] := entry], pending := s.pending[1..]);
      SettleKeeps(s, entry);
      buffers := buffers[pendingDownloads[0] := entry];
      pendingDownloads := pendingDownloads[1..];
      assert S() == goal;
    }

    /** `SettleFirst`, told from the start of the call; `n` is the first that fails. */
    method SettleTurn(failing: map<nat, GpuError>, ghost before: map<nat, BufferEntry>, ghost all: seq<nat>, ghost i: nat, ghost n: nat)
      returns (r: Result<(), GpuError>)
      requires Valid() && Listed(before, all) && i < |all| && i <= n && FailsAt(all, failing, n)
      requires pendingDownloads == all[i..] && buffers == Settled(before, all[..i])
      modifies this`buffers, this`pendingDownloads
      ensures Valid() && pendingDownloads == all[i + 1..] && all[i] in before
      ensures r.Ok? ==> i < n && buffers == Settled(before, all[..i + 1])
      ensures r.Err? ==>
                && i == n && r == Err(failing[all[i]])
                && buffers == Settled(before, all[..i])[all[i] := before[all[i]].(download := None)]
    {
      ListedAt(before, all, i);
      SettleNext(before, all, i);
      r := SettleFirst(failing);
      assert all[i..][1..] == all[i + 1..];
    }

    /** The loop over the list, up to the first failure `n`. */
    method SettleLoop(failing: map<nat, GpuError>, ghost before: map<nat, BufferEntry>, ghost all: seq<nat>, ghost n: nat)
      returns (r: Result<(), GpuError>, ghost i: nat)
      requires Valid() && Listed(before, all) && FailsAt(all, failing, n)
      requires Midway(before, all, n, 0, buffers, pendingDownloads)
      modifies this`buffers, this`pendingDownloads
      ensures Valid()
      ensures r.Ok? ==> r == Ok(()) && Midway(before, all, n, i, buffers, []) && pendingDownloads == []
      ensures r.Err? ==>
                && n < |all| && r == Err(failing[all[n]]) && pendingDownloads == all[n + 1..] && all[n] in before
                && buffers == Settled(before, all[..n])[all[n] := before[all[n]].(download := None)]
    {
      i := 0;
      while |pendingDownloads| > 0
        invariant Valid()
        invariant Midway(before, all, n, i, buffers, pendingDownloads)
        decreases |pendingDownloads|
      {
        r := SettleTurn(failing, before, all, i, n);
        if r.Err? {
          return;
        }
        i := i + 1;
      }
      r := Ok(());
    }

    method SettleAll(failing: map<nat, GpuError>) returns (r: Result<(), GpuError>)
      requires Valid()
      modifies this`buffers, this`pendingDownloads
      ensures Valid()
      ensures SettledUpTo(old(buffers), old(pendingDownloads), failing, buffers, pendingDownloads)
      ensures r == MapOutcome(old(pendingDownloads), failing)
    {
      ghost var all, before := pendingDownloads, buffers;
      ghost var n := FirstFailure(all, failing);
      MidwayStarts(before, all, n);
      ghost var i;
      r, i := SettleLoop(failing, before, all, n);
      if r.Err? {
        MidwayFails(before, all, failing, buffers, pendingDownloads);
      } else {
        MidwayEnds(before, all, failing, i, buffers);
      }
    }

    /** Settles the listed downloads in order up to the first that fails to map; `failing`
        gives the device's errors, `polled` whether the wait succeeded, and `recorded`
        whether the device reported errors of its own. */
    method Synchronize(polled: bool, failing: map<nat, GpuError>, recorded: bool) returns (r: Result<(), GpuError>)
      requires Valid() && forall h :: h in failing ==> failing[h] == Poll || failing[h] == Map
      modifies this`buffers, this`pendingDownloads
      ensures Valid()
      ensures !polled ==> r == Err(Poll) && S() == old(S())
      ensures polled ==> SettledUpTo(old(buffers), old(pendingDownloads), failing, buffers, pendingDownloads)
      ensures polled ==> forall i :: 0 <= i < FirstFailure(old(pendingDownloads), failing) ==>
                var h := old(pendingDownloads)[i];
                IsPending(old(buffers), h) &&
                var d := old(buffers)[h].download.value; Readable(buffers, h, d.offset, d.length, d.version)
      ensures polled ==>
                r == if MapOutcome(old(pendingDownloads), failing).Ok? && recorded then Err(Device) else MapOutcome(old(pendingDownloads), failing)
      ensures r.Err? ==> r.error != Internal
    {
      if !polled {
        return Err(Poll);
      }
      ghost var s := S();
      r := SettleAll(failing);
      forall i | 0 <= i < FirstFailure(s.pending, failing)
        ensures IsPending(s.buffers, s.pending[i])
        ensures var d := s.buffers[s.pending[i]].download.value; Readable(buffers, s.pending[i], d.offset, d.length, d.version)
      {
        ListedAt(s.buffers, s.pending, i);
        assert BufferOk(s, s.pending[i]);
        SettledReads(s.buffers, s.pending, failing, buffers, pendingDownloads, i);
      }
      if r.Ok? && recorded {
        r := Err(Device);
      }
    }

    /** Answers the bytes of the version the download was queued at, once, and only for the
        range it was queued for. */
    method ReadDownload(handle: nat, offset: nat, size: nat) returns (r: Result<seq<byte>, GpuError>)
      requires Valid()
      modifies this`buffers
      ensures Valid()
      ensures r.Err? ==>
                && buffers == old(buffers)
                && r.error == if handle !in buffers then StaleHandle(handle)
                              else if buffers[handle].download.None? || IsPending(buffers, handle) then DownloadNotReady(handle)
                              else DownloadMismatch
      ensures r.Ok? <==>
                && handle in old(buffers) && old(buffers)[handle].download.Some? && old(buffers)[handle].download.value.Ready?
                && old(buffers)[handle].download.value.offset == offset && |old(buffers)[handle].download.value.bytes| == size
      ensures r.Ok? ==>
                var version := old(buffers)[handle].download.value.version;
                && buffers == old(buffers)[handle := old(buffers)[handle].(download := None, completed := Some(version))]
                && handle in history && version < |history[handle]| && offset + size <= |history[handle][version]|
                && r.value == history[handle][version][offset..offset + size]
    {
      if handle !in buffers {
        return Err(StaleHandle(handle));
      }
      ghost var s := S();
      var entry := buffers[handle];
      assert BufferOk(s, handle);
      if entry.download.None? || entry.download.value.Pending? {
        return Err(DownloadNotReady(handle));
      }
      var ready := entry.download.value;
      if ready.offset != offset || |ready.bytes| != size {
        return Err(DownloadMismatch);
      }
      var taken := entry.(download := None, completed := Some(ready.version));
      ghost var goal := s.(buffers := s.buffers[handle := taken]);
      ReadKeeps(s, handle, taken);
      buffers := buffers[handle := taken];
      assert S() == goal;
      return Ok(ready.bytes);
    }
  }

  /** Handles drawn by other contexts leave this one valid. */
  twostate lemma DrawnElsewhere(c: GpuContext)
    requires old(c.Valid()) && unchanged(c) && old(c.counter.next) <= c.counter.next
    ensures c.Valid()
  {
    var s, t := old(c.S()), c.S();
    forall h | h in t.buffers ensures BufferOk(t, h) {
      assert BufferOk(s, h);
    }
    BindingsSteady(s, t);
  }

  /** Padding falls outside the buffer's bytes. */
  lemma PaddedOverwrite(memory: seq<byte>, offset: nat, bytes: seq<byte>, copied: nat, size: nat)
    requires offset + copied <= |memory| && |bytes| <= copied && offset + |bytes| <= size <= |memory|
    requires |bytes| == copied || offset + |bytes| == size
    ensures var after := Overwritten(memory, offset, bytes + Zeros(copied - |bytes|));
            && after[offset..offset + |bytes|] == bytes && after[..offset] == memory[..offset]
            && after[offset + |bytes|..size] == memory[offset + |bytes|..size]
  {
  }
}
