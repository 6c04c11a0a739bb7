/** `hand_scan`: the structural scan sixteen bytes at a time, proved against `JsonScan`. */
module JsonScanNeon {
  import opened Wrappers
  import opened Utf8
  import opened Neon
  import opened JsonScan

  // ----- the event machine -----

  /** The scanner's local variables that events read and change. */
  datatype Machine = Machine(
    written: nat, inString: bool, stringEscaped: bool,
    slashOdd: bool, haveSlash: bool, lastSlash: nat,
    owed: nat, constraint: nat, haveNonAscii: bool, lastNonAscii: nat)

  const POWER_ON := Machine(0, false, false, false, false, 0, 0, 0, false, 0)

  /** What one event does: goes on, perhaps with a word for the tape, or returns. */
  datatype Reaction =
    | Go(machine: Machine, word: Option<nat>)
    | Return(status: nat, position: nat)

  /** `position | 0x80000000` on 32 bits. */
  function WithFlag(position: nat): nat
  {
    if position / FLAG % 2 == 0 then position + FLAG else position
  }

  predicate Violates(constraint: nat, c: byte)
  {
    || (constraint == 1 && c < 160) || (constraint == 2 && c > 159)
    || (constraint == 3 && c < 144) || (constraint == 4 && c > 143)
  }

  function ConstraintOf(lead: byte): nat
  {
    if lead == 224 then 1 else if lead == 237 then 2
    else if lead == 240 then 3 else if lead == 244 then 4 else 0
  }

  /** The body of the event loop. */
  function React(m: Machine, c: byte, position: nat, capacity: nat): Reaction
  {
    if m.owed != 0 && (!m.haveNonAscii || position != m.lastNonAscii + 1) then
      Return(STATUS_UTF8, m.lastNonAscii + 2)
    else if c >= 128 then ReactNonAscii(m, c, position)
    else if m.owed != 0 then Return(STATUS_UTF8, position + 1)
    else if c == BACKSLASH then
      if !m.inString then Return(STATUS_BACKSLASH, position + 1)
      else
        var odd := if m.haveSlash && position == m.lastSlash + 1 then !m.slashOdd else true;
        Go(m.(slashOdd := odd, haveSlash := true, lastSlash := position, stringEscaped := true), None)
    else
      var escaped := m.haveSlash && position == m.lastSlash + 1 && m.slashOdd;
      var rest := m.(haveSlash := false, slashOdd := false);
      if c == QUOTE && !escaped then
        if m.written >= capacity then Return(STATUS_FULL, position + 1)
        else
          var word := if m.inString && m.stringEscaped then WithFlag(position) else position;
          Go(rest.(written := m.written + 1, stringEscaped := m.stringEscaped && m.inString,
                   inString := !m.inString), Some(word))
      else if c < 32 then
        if m.inString || !Whitespace(c) then Return(STATUS_CONTROL, position + 1) else Go(rest, None)
      else if !m.inString then
        if m.written >= capacity then Return(STATUS_FULL, position + 1)
        else Go(rest.(written := m.written + 1), Some(position))
      else Go(rest, None)
  }

  function ReactNonAscii(m: Machine, c: byte, position: nat): Reaction
  {
    var seen := m.(haveNonAscii := true, lastNonAscii := position, haveSlash := false, slashOdd := false);
    if m.owed != 0 then
      if c > 191 || Violates(m.constraint, c) then Return(STATUS_UTF8, position + 1)
      else Go(seen.(owed := m.owed - 1, constraint := 0), None)
    else if c <= 191 || c < 194 || c > 244 then Return(STATUS_UTF8, position + 1)
    else
      var owed := if c <= 223 then 1 else if c <= 239 then 2 else 3;
      var constraint := ConstraintOf(c);
      Go(seen.(owed := owed, constraint := if constraint != 0 then constraint else m.constraint), None)
  }

  predicate AsciiEvent(c: byte) { c == QUOTE || c == BACKSLASH || c < 32 || Structural(c) }

  predicate IsEvent(c: byte) { AsciiEvent(c) || c >= 128 }

  // ----- how the machine follows the byte-at-a-time scan -----

  /** `owed` and `constraint` as the automaton's state. */
  function Expected(m: Machine): State
  {
    State(m.owed,
          if m.constraint == 1 then 160 else if m.constraint == 3 then 144 else 0x80,
          if m.constraint == 2 then 159 else if m.constraint == 4 then 143 else 0xBF)
  }

  /** The string and backslash variables agree with the scan after `n` bytes. */
  ghost predicate Agrees(s: Scan, m: Machine, n: nat, words: seq<nat>)
  {
    && m.inString == s.inString && m.stringEscaped == s.escaped
    && words == s.tape && m.written == |words|
    && (m.haveSlash ==> m.lastSlash < n)
    && (s.odd <==> m.haveSlash && m.lastSlash + 1 == n && m.slashOdd)
    && (s.odd ==> s.inString)
  }

  /** Byte by byte: the machine agrees, or an unfinished scalar was passed over and
      the next event or the end of the text will report it where the scan did. */
  ghost predicate InStep(b: seq<byte>, n: nat, capacity: nat, m: Machine, words: seq<nat>)
    requires n <= |b|
  {
    m.constraint <= 4 && (m.owed == 0 ==> m.constraint == 0) &&
    match Scanned(b, n, capacity)
    case Running(s) =>
      && Agrees(s, m, n, words)
      && Expected(m) == s.utf
      && (m.owed != 0 ==> m.haveNonAscii && m.lastNonAscii + 1 == n)
    case Stopped(status, position, tape) =>
      && status == STATUS_UTF8 && position == m.lastNonAscii + 2
      && tape == words && m.written == |words|
      && m.owed != 0 && m.haveNonAscii && m.lastNonAscii + 1 < n
  }

  /** Block by block: the machine has seen no byte above 127, and the scan runs on or
      refused only the last byte. */
  ghost predicate InBlock(b: seq<byte>, n: nat, capacity: nat, m: Machine, words: seq<nat>)
    requires n <= |b|
  {
    m.owed == 0 && m.constraint == 0 && !m.haveNonAscii &&
    match Scanned(b, n, capacity)
    case Running(s) => Agrees(s, m, n, words)
    case Stopped(status, position, tape) =>
      && status == STATUS_UTF8 && position == n && BadTail(b, n)
      && tape == words && m.written == |words|
  }

  function Extended(words: seq<nat>, word: Option<nat>): seq<nat>
  {
    if word.Some? then words + [word.value] else words
  }

  /** An event byte by byte, of a byte above 127 inside an unfinished scalar. */
  lemma StepContinues(b: seq<byte>, n: nat, capacity: nat, m: Machine, words: seq<nat>)
    requires n < |b| && InStep(b, n, capacity, m, words) && b[n] >= 128 && m.owed != 0
    requires Scanned(b, n, capacity).Running?
    ensures var r := React(m, b[n], n, capacity);
            r.Return? ==> Scanned(b, n + 1, capacity) == Stopped(r.status, r.position, words)
    ensures var r := React(m, b[n], n, capacity);
            r.Go? ==> r.word.None? && InStep(b, n + 1, capacity, r.machine, words)
  {
    var s, c := Scanned(b, n, capacity).scan, b[n];
    assert React(m, c, n, capacity) == ReactNonAscii(m, c, n);
    assert Utf8.Step(s.utf, c).Some? <==> c <= 191 && !Violates(m.constraint, c);
  }

  /** The same of a byte that must start a scalar. */
  lemma StepLeads(b: seq<byte>, n: nat, capacity: nat, m: Machine, words: seq<nat>)
    requires n < |b| && InStep(b, n, capacity, m, words) && b[n] >= 128 && m.owed == 0
    requires Scanned(b, n, capacity).Running?
    ensures var r := React(m, b[n], n, capacity);
            r.Return? ==> Scanned(b, n + 1, capacity) == Stopped(r.status, r.position, words)
    ensures var r := React(m, b[n], n, capacity);
            r.Go? ==> r.word.None? && InStep(b, n + 1, capacity, r.machine, words)
  {
    var s, c := Scanned(b, n, capacity).scan, b[n];
    assert React(m, c, n, capacity) == ReactNonAscii(m, c, n);
    assert Utf8.Step(s.utf, c).Some? <==> 194 <= c <= 244;
  }

  /** An event of a byte below 128 while no scalar is unfinished. */
  lemma EventAscii(s: Scan, m: Machine, n: nat, words: seq<nat>, c: byte, capacity: nat)
    requires n < FLAG && Agrees(s, m, n, words) && AsciiEvent(c)
    requires m.owed == 0 && s.utf.owed == 0
    ensures var r := React(m, c, n, capacity);
            r.Return? ==> Advance(s, c, n, capacity) == Stopped(r.status, r.position, words)
    ensures var r := React(m, c, n, capacity);
            r.Go? ==>
              && Advance(s, c, n, capacity).Running? && Advance(s, c, n, capacity).scan.utf == START
              && r.machine.owed == 0 && r.machine.constraint == m.constraint
              && r.machine.haveNonAscii == m.haveNonAscii
              && Agrees(Advance(s, c, n, capacity).scan, r.machine, n + 1, Extended(words, r.word))
  {
    if c == BACKSLASH {
    } else if c == QUOTE {
    } else if c < 32 {
    } else {
    }
  }

  /** An event byte by byte. */
  lemma StepEvent(b: seq<byte>, n: nat, capacity: nat, m: Machine, words: seq<nat>)
    requires n < |b| < FLAG && InStep(b, n, capacity, m, words) && IsEvent(b[n])
    ensures var r := React(m, b[n], n, capacity);
            r.Return? ==> Scanned(b, n + 1, capacity) == Stopped(r.status, r.position, words)
    ensures var r := React(m, b[n], n, capacity);
            r.Go? ==> InStep(b, n + 1, capacity, r.machine, Extended(words, r.word))
  {
    if Scanned(b, n, capacity).Running? {
      if b[n] >= 128 && m.owed != 0 {
        StepContinues(b, n, capacity, m, words);
      } else if b[n] >= 128 {
        StepLeads(b, n, capacity, m, words);
      } else if m.owed == 0 {
        EventAscii(Scanned(b, n, capacity).scan, m, n, words, b[n], capacity);
      }
    }
  }

  lemma StepQuiet(b: seq<byte>, n: nat, capacity: nat, m: Machine, words: seq<nat>)
    requires n < |b| && InStep(b, n, capacity, m, words) && !IsEvent(b[n])
    ensures InStep(b, n + 1, capacity, m, words)
  {
  }

  /** An event in a clean block: a byte below 128. */
  lemma BlockEvent(b: seq<byte>, n: nat, capacity: nat, m: Machine, words: seq<nat>)
    requires n < |b| < FLAG && InBlock(b, n, capacity, m, words) && AsciiEvent(b[n])
    requires Clean(b, n + 1)
    ensures var r := React(m, b[n], n, capacity);
            r.Return? ==> Scanned(b, n + 1, capacity) == Stopped(r.status, r.position, words)
    ensures var r := React(m, b[n], n, capacity);
            r.Go? ==> InBlock(b, n + 1, capacity, r.machine, Extended(words, r.word))
  {
    BlockRuns(b, n, capacity, m, words);
    EventAscii(Scanned(b, n, capacity).scan, m, n, words, b[n], capacity);
  }

  lemma BlockQuiet(b: seq<byte>, n: nat, capacity: nat, m: Machine, words: seq<nat>)
    requires n < |b| && InBlock(b, n, capacity, m, words) && !AsciiEvent(b[n])
    requires Clean(b, n + 1)
    ensures InBlock(b, n + 1, capacity, m, words)
  {
    BlockRuns(b, n, capacity, m, words);
  }

  /** Inside a clean block nothing has been refused yet. */
  lemma BlockRuns(b: seq<byte>, n: nat, capacity: nat, m: Machine, words: seq<nat>)
    requires n < |b| && InBlock(b, n, capacity, m, words) && Clean(b, n + 1)
    ensures Scanned(b, n, capacity).Running?
    ensures Run(b, n) == Some(Scanned(b, n, capacity).scan.utf)
    ensures Run(b, n + 1).Some? || BadTail(b, n + 1)
  {
    CleanIffAccepted(b, n + 1);
    if Scanned(b, n, capacity).Running? {
      RunningUtf8(b, n, capacity);
    }
  }

  // ----- the event word -----

  /** A 64-bit word, lowest bit first. */
  type Word64 = w: seq<bool> | |w| == 64 witness seq(64, _ => false)

  const ZERO: Word64 := seq(64, _ => false)

  /** `bit >> shift` for the two shifts in use: four bits a lane out of `nibbles`, one
      bit for the byte path. */
  function Shifted(bit: nat, shift: nat): nat { if shift == 2 then bit / 4 else bit }

  /** The lanes of `mask` from `lane` on. */
  function Spread(mask: seq<bool>, lane: nat, shift: nat): Word64
  {
    seq(64, j requires 0 <= j => lane <= Shifted(j, shift) < |mask| && mask[Shifted(j, shift)])
  }

  // ----- `nibbles` -----

  /** A comparison's lanes: all ones or all zeros. */
  function Lanes(mask: seq<bool>): (v: Vec)
    requires |mask| == 16
  {
    seq(16, i requires 0 <= i < 16 => if mask[i] then 0xFF else 0)
  }

  /** Two neighbouring bytes read as one 16-bit lane, low byte first, shifted right by four
      and narrowed to its low byte. */
  function ShiftNarrow(low: byte, high: byte): byte
  {
    var lane: bv16 := ((high as bv16) << 8) | (low as bv16);
    ((lane >> 4) & 0xFF) as byte
  }

  function Bit(x: byte, k: nat): bool
    requires k < 8
  {
    x & [1, 2, 4, 8, 16, 32, 64, 128][k] != 0
  }

  /** `vshrn_n_u16` over the eight 16-bit lanes, read as one 64-bit word. */
  function Nibbles(v: Vec): Word64
  {
    seq(64, j requires 0 <= j < 64 => Bit(ShiftNarrow(v[j / 8 * 2], v[j / 8 * 2 + 1]), j % 8))
  }

  /** Of two comparison lanes, the low one fills the low nibble and the high one the high. */
  lemma ShiftNarrowPairs(low: bool, high: bool, k: nat)
    requires k < 8
    ensures Bit(ShiftNarrow(if low then 0xFF else 0, if high then 0xFF else 0), k) == (if k < 4 then low else high)
  {
    var x := ShiftNarrow(if low then 0xFF else 0, if high then 0xFF else 0);
    assert x == (if low then 0x0F else 0) | (if high then 0xF0 else 0);
  }

  /** Each lane becomes four bits of the word, in order. */
  lemma NibblesSpread(mask: seq<bool>)
    requires |mask| == 16
    ensures Nibbles(Lanes(mask)) == Spread(mask, 0, 2)
  {
    var v, w, s := Lanes(mask), Nibbles(Lanes(mask)), Spread(mask, 0, 2);
    forall j | 0 <= j < 64 ensures w[j] == s[j] {
      var pair := j / 8 * 2;
      ShiftNarrowPairs(mask[pair], mask[pair + 1], j % 8);
      assert j / 4 == pair + j % 8 / 4;
    }
  }

  /** The event word of a block, or the one event of the byte path. */
  method EventWord(mask: seq<bool>, shift: nat) returns (events: Word64)
    requires Grouped(mask, shift)
    ensures events == Spread(mask, 0, shift)
  {
    if shift == 2 {
      NibblesSpread(mask);
      events := Nibbles(Lanes(mask));
    } else {
      events := [mask[0]] + seq(63, _ => false);
    }
  }

  /** `__builtin_ctzll`: the lowest set bit. */
  function Lowest(w: Word64, from: nat): (bit: nat)
    requires from <= 64 && exists j :: from <= j < 64 && w[j]
    ensures from <= bit < 64 && w[bit]
    ensures forall j :: from <= j < bit ==> !w[j]
    decreases 64 - from
  {
    if w[from] then from else Lowest(w, from + 1)
  }

  /** `events & ~(0xF << bit)`. */
  function ClearNibble(w: Word64, bit: nat): Word64
  {
    seq(64, j requires 0 <= j < 64 => w[j] && !(bit <= j < bit + 4))
  }

  lemma NonZeroHasBit(w: Word64)
    requires w != ZERO
    ensures exists j :: 0 <= j < 64 && w[j]
  {
    assert (forall j :: 0 <= j < 64 ==> w[j] == ZERO[j]) ==> w == ZERO;
  }

  ghost predicate Grouped(mask: seq<bool>, shift: nat)
  {
    (shift == 2 && |mask| == 16) || (shift == 0 && |mask| == 1)
  }

  /** The lowest bit names the next set lane, and clearing its nibble clears that lane. */
  lemma NextLane(mask: seq<bool>, lane: nat, shift: nat, bit: nat)
    requires Grouped(mask, shift)
    requires bit < 64 && Spread(mask, lane, shift)[bit]
    requires forall j :: 0 <= j < bit ==> !Spread(mask, lane, shift)[j]
    ensures var next := Shifted(bit, shift);
            && lane <= next < |mask| && mask[next]
            && (forall k :: lane <= k < next ==> !mask[k])
            && ClearNibble(Spread(mask, lane, shift), bit) == Spread(mask, next + 1, shift)
  {
    var w := Spread(mask, lane, shift);
    var next := Shifted(bit, shift);
    if shift == 2 {
      forall k | lane <= k < next ensures !mask[k] {
        assert !w[4 * k];
      }
      assert bit % 4 == 0 by {
        assert bit > 0 ==> !w[bit - 1];
      }
    }
  }

  lemma NoLaneLeft(mask: seq<bool>, lane: nat, shift: nat)
    requires Grouped(mask, shift) && Spread(mask, lane, shift) == ZERO
    ensures forall k :: lane <= k < |mask| ==> !mask[k]
  {
    forall k | lane <= k < |mask| ensures !mask[k] {
      var bit := if shift == 2 then 4 * k else k;
      assert Spread(mask, lane, shift)[bit] == ZERO[bit];
    }
  }

  // ----- draining -----

  datatype Drained = Drained(machine: Machine, words: seq<nat>, stop: Option<(nat, nat)>)

  /** The marked lanes from `lane` on, each handed to the machine in turn. */
  function Drains(b: seq<byte>, at: nat, mask: seq<bool>, lane: nat, capacity: nat,
                  m: Machine, words: seq<nat>): Drained
    requires at + |mask| <= |b|
    decreases |mask| - lane
  {
    if lane >= |mask| then Drained(m, words, None)
    else if !mask[lane] then Drains(b, at, mask, lane + 1, capacity, m, words)
    else match React(m, b[at + lane], at + lane, capacity)
      case Return(status, position) => Drained(m, words, Some((status, position)))
      case Go(next, word) => Drains(b, at, mask, lane + 1, capacity, next, Extended(words, word))
  }

  lemma {:induction false} DrainsSkip(b: seq<byte>, at: nat, mask: seq<bool>, lane: nat, next: nat,
                                      capacity: nat, m: Machine, words: seq<nat>)
    requires at + |mask| <= |b| && lane <= next <= |mask|
    requires forall k :: lane <= k < next ==> !mask[k]
    ensures Drains(b, at, mask, lane, capacity, m, words) == Drains(b, at, mask, next, capacity, m, words)
    decreases next - lane
  {
    if lane < next {
      DrainsSkip(b, at, mask, lane + 1, next, capacity, m, words);
    }
  }

  lemma ReactCounts(m: Machine, c: byte, position: nat, capacity: nat)
    ensures var r := React(m, c, position, capacity);
            r.Go? ==>
              && r.machine.written == m.written + (if r.word.Some? then 1 else 0)
              && (r.word.Some? ==> m.written < capacity)
  {
  }

  /** The next marked lane is drained: the machine stops there, or goes on after it. */
  lemma DrainsOne(b: seq<byte>, at: nat, mask: seq<bool>, lane: nat, next: nat, capacity: nat, m: Machine, words: seq<nat>)
    requires at + |mask| <= |b| && lane <= next < |mask| && mask[next]
    requires forall k :: lane <= k < next ==> !mask[k]
    ensures Drains(b, at, mask, lane, capacity, m, words) ==
              match React(m, b[at + next], at + next, capacity)
              case Return(status, position) => Drained(m, words, Some((status, position)))
              case Go(after, word) => Drains(b, at, mask, next + 1, capacity, after, Extended(words, word))
  {
    DrainsSkip(b, at, mask, lane, next, capacity, m, words);
  }

  lemma DrainsNone(b: seq<byte>, at: nat, mask: seq<bool>, lane: nat, capacity: nat, m: Machine, words: seq<nat>)
    requires at + |mask| <= |b| && lane <= |mask| && forall k :: lane <= k < |mask| ==> !mask[k]
    ensures Drains(b, at, mask, lane, capacity, m, words) == Drained(m, words, None)
  {
    DrainsSkip(b, at, mask, lane, |mask|, capacity, m, words);
  }

  /** Takes the lowest lane out of the word. */
  method TakeLane(events: Word64, shift: nat, ghost mask: seq<bool>, ghost lane: nat) returns (next: nat, rest: Word64)
    requires events != ZERO && Grouped(mask, shift) && events == Spread(mask, lane, shift)
    ensures lane <= next < |mask| && mask[next] && forall k :: lane <= k < next ==> !mask[k]
    ensures rest == Spread(mask, next + 1, shift)
  {
    NonZeroHasBit(events);
    var bit := Lowest(events, 0);
    NextLane(mask, lane, shift, bit);
    return Shifted(bit, shift), ClearNibble(events, bit);
  }

  /** The event loop: lowest lane first, writing the tape as it goes. */
  method Drain(source: seq<byte>, at: nat, mask: seq<bool>, shift: nat,
               tape: array<nat>, capacity: nat, start: Machine)
    returns (m: Machine, stop: Option<(nat, nat)>)
    requires Grouped(mask, shift) && at + |mask| <= |source|
    requires start.written <= capacity <= tape.Length
    modifies tape
    ensures start.written <= m.written <= capacity
    ensures forall i :: m.written <= i < tape.Length ==> tape[i] == old(tape[i])
    ensures Drained(m, tape[..m.written], stop)
         == Drains(source, at, mask, 0, capacity, start, old(tape[..start.written]))
  {
    m := start;
    var events := EventWord(mask, shift);
    ghost var lane, words := 0, tape[..m.written];
    ghost var goal := Drains(source, at, mask, 0, capacity, m, words);
    while events != ZERO
      invariant lane <= |mask| && events == Spread(mask, lane, shift)
      invariant start.written <= m.written <= capacity && words == tape[..m.written]
      invariant forall i :: m.written <= i < tape.Length ==> tape[i] == old(tape[i])
      invariant Drains(source, at, mask, lane, capacity, m, words) == goal
      decreases |mask| - lane
    {
      var next, rest := TakeLane(events, shift, mask, lane);
      DrainsOne(source, at, mask, lane, next, capacity, m, words);
      events, lane := rest, next + 1;
      var position := at + next;
      ReactCounts(m, source[position], position, capacity);
      var reaction := React(m, source[position], position, capacity);
      if reaction.Return? {
        return m, Some((reaction.status, reaction.position));
      }
      m, words := Emit(tape, capacity, m, reaction, words);
    }
    NoLaneLeft(mask, lane, shift);
    DrainsNone(source, at, mask, lane, capacity, m, words);
    stop := None;
  }

  /** Puts an event's word, if it has one, on the tape. */
  method Emit(tape: array<nat>, capacity: nat, m: Machine, reaction: Reaction, ghost words: seq<nat>)
    returns (next: Machine, ghost after: seq<nat>)
    requires reaction.Go? && m.written <= capacity <= tape.Length && words == tape[..m.written]
    requires reaction.machine.written == m.written + (if reaction.word.Some? then 1 else 0)
    requires reaction.machine.written <= capacity
    modifies tape
    ensures next == reaction.machine && after == Extended(words, reaction.word)
    ensures after == tape[..next.written]
    ensures forall i :: next.written <= i < tape.Length ==> tape[i] == old(tape[i])
  {
    if reaction.word.Some? {
      tape[m.written] := reaction.word.value;
    }
    next := reaction.machine;
    after := Extended(words, reaction.word);
  }

  // ----- what draining does to the scan -----

  ghost predicate Ready(vector: bool, b: seq<byte>, n: nat, capacity: nat, m: Machine, words: seq<nat>)
    requires n <= |b|
  {
    if vector then InBlock(b, n, capacity, m, words) else InStep(b, n, capacity, m, words)
  }

  /** `mask` marks the events of the bytes at `at`; a block's bytes above 127 are
      instead known to be clean. */
  ghost predicate Marks(vector: bool, b: seq<byte>, at: nat, mask: seq<bool>)
  {
    && at + |mask| <= |b|
    && (vector ==> Clean(b, at + |mask|))
    && forall i :: 0 <= i < |mask| ==>
         mask[i] == if vector then AsciiEvent(b[at + i]) else IsEvent(b[at + i])
  }

  lemma QuietLane(vector: bool, b: seq<byte>, at: nat, mask: seq<bool>, lane: nat,
                  capacity: nat, m: Machine, words: seq<nat>)
    requires Marks(vector, b, at, mask) && lane < |mask| && !mask[lane]
    requires Ready(vector, b, at + lane, capacity, m, words)
    ensures Ready(vector, b, at + lane + 1, capacity, m, words)
  {
    if vector {
      BlockQuiet(b, at + lane, capacity, m, words);
    } else {
      StepQuiet(b, at + lane, capacity, m, words);
    }
  }

  lemma MarkedLane(vector: bool, b: seq<byte>, at: nat, mask: seq<bool>, lane: nat,
                   capacity: nat, m: Machine, words: seq<nat>)
    requires |b| < FLAG && Marks(vector, b, at, mask) && lane < |mask| && mask[lane]
    requires Ready(vector, b, at + lane, capacity, m, words)
    ensures var r := React(m, b[at + lane], at + lane, capacity);
            r.Return? ==> Scanned(b, at + lane + 1, capacity) == Stopped(r.status, r.position, words)
    ensures var r := React(m, b[at + lane], at + lane, capacity);
            r.Go? ==> Ready(vector, b, at + lane + 1, capacity, r.machine, Extended(words, r.word))
  {
    if vector {
      BlockEvent(b, at + lane, capacity, m, words);
    } else {
      StepEvent(b, at + lane, capacity, m, words);
    }
  }

  /** The drained machine stands where the scan stands after `n` bytes. */
  ghost predicate Followed(vector: bool, b: seq<byte>, n: nat, capacity: nat, d: Drained)
    requires n <= |b|
  {
    if d.stop.None? then Ready(vector, b, n, capacity, d.machine, d.words)
    else Scanned(b, n, capacity) == Stopped(d.stop.value.0, d.stop.value.1, d.words)
  }

  lemma FollowQuiet(vector: bool, b: seq<byte>, at: nat, mask: seq<bool>, lane: nat,
                    capacity: nat, m: Machine, words: seq<nat>)
    requires at + |mask| <= |b| && lane < |mask| && !mask[lane]
    requires Followed(vector, b, at + |mask|, capacity, Drains(b, at, mask, lane + 1, capacity, m, words))
    ensures Followed(vector, b, at + |mask|, capacity, Drains(b, at, mask, lane, capacity, m, words))
  {
    DrainsSkip(b, at, mask, lane, lane + 1, capacity, m, words);
  }

  lemma FollowMarked(vector: bool, b: seq<byte>, at: nat, mask: seq<bool>, lane: nat,
                     capacity: nat, m: Machine, words: seq<nat>)
    requires at + |mask| <= |b| && lane < |mask| && mask[lane]
    requires var r := React(m, b[at + lane], at + lane, capacity);
             && (r.Return? ==> Scanned(b, at + lane + 1, capacity) == Stopped(r.status, r.position, words))
             && (r.Go? ==> Followed(vector, b, at + |mask|, capacity,
                                    Drains(b, at, mask, lane + 1, capacity, r.machine, Extended(words, r.word))))
    ensures Followed(vector, b, at + |mask|, capacity, Drains(b, at, mask, lane, capacity, m, words))
  {
    DrainsOne(b, at, mask, lane, lane, capacity, m, words);
    if React(m, b[at + lane], at + lane, capacity).Return? {
      StoppedStays(b, at + lane + 1, at + |mask|, capacity);
    }
  }

  /** Draining the marked lanes does what the scan does over all of them. */
  lemma {:induction false} DrainsFollow(vector: bool, b: seq<byte>, at: nat, mask: seq<bool>, lane: nat,
                                        capacity: nat, m: Machine, words: seq<nat>)
    requires |b| < FLAG && Marks(vector, b, at, mask) && lane <= |mask|
    requires Ready(vector, b, at + lane, capacity, m, words)
    ensures Followed(vector, b, at + |mask|, capacity, Drains(b, at, mask, lane, capacity, m, words))
    decreases |mask| - lane
  {
    if lane == |mask| {
      DrainsNone(b, at, mask, lane, capacity, m, words);
    } else if !mask[lane] {
      QuietLane(vector, b, at, mask, lane, capacity, m, words);
      DrainsFollow(vector, b, at, mask, lane + 1, capacity, m, words);
      FollowQuiet(vector, b, at, mask, lane, capacity, m, words);
    } else {
      MarkedLane(vector, b, at, mask, lane, capacity, m, words);
      var r := React(m, b[at + lane], at + lane, capacity);
      if r.Go? {
        DrainsFollow(vector, b, at, mask, lane + 1, capacity, r.machine, Extended(words, r.word));
      }
      FollowMarked(vector, b, at, mask, lane, capacity, m, words);
    }
  }

  // ----- re-seeding the byte path -----

  /** The walk back for an unfinished scalar, from `back` bytes before `at`. */
  function Walk(b: seq<byte>, at: nat, back: nat, m: Machine): Reaction
    requires at <= |b| && back > 0
    decreases 4 - back
  {
    if back > 3 || back > at then Go(m, None)
    else
      var earlier := b[at - back];
      if earlier < 128 then Go(m, None)
      else if earlier < 192 then Walk(b, at, back + 1, m)
      else if earlier < 194 || earlier > 244 then Return(STATUS_UTF8, at - back + 1)
      else Go(Owing(m, earlier, at, back), None)
  }

  /** What the walk records when it finds a lead `back` bytes before `at`. */
  function Owing(m: Machine, lead: byte, at: nat, back: nat): Machine
    requires 0 < back <= at
  {
    var need := if lead <= 223 then 1 else if lead <= 239 then 2 else 3;
    if need < back then m
    else
      m.(owed := need - back + 1, haveNonAscii := true, lastNonAscii := at - 1,
         constraint := if back == 1 && ConstraintOf(lead) != 0 then ConstraintOf(lead) else m.constraint)
  }

  method Seed(source: seq<byte>, at: nat, start: Machine) returns (r: Reaction)
    requires at <= |source|
    ensures r == Walk(source, at, 1, start)
  {
    var back := 1;
    while back <= 3 && back <= at
      invariant 1 <= back <= 4
      invariant Walk(source, at, back, start) == Walk(source, at, 1, start)
    {
      var earlierAt := at - back;
      var earlier := source[earlierAt];
      if earlier < 128 {
        return Go(start, None);
      } else if earlier >= 192 {
        if earlier < 194 || earlier > 244 {
          return Return(STATUS_UTF8, earlierAt + 1);
        }
        return Go(Owing(start, earlier, at, back), None);
      }
      back := back + 1;
    }
    return Go(start, None);
  }

  /** `after` is `before` but for what it owes, and owes `state` at `at`. */
  ghost predicate Owes(before: Machine, after: Machine, state: State, at: nat)
  {
    && Expected(after) == state && after.constraint <= 4
    && (after.owed == 0 ==> after == before)
    && (after.owed != 0 ==> after.haveNonAscii && after.lastNonAscii + 1 == at)
    && after == before.(owed := after.owed, constraint := after.constraint,
                        haveNonAscii := after.haveNonAscii, lastNonAscii := after.lastNonAscii)
  }

  lemma OwingIsPending(m: Machine, lead: byte, at: nat, back: nat)
    requires 0 < back <= at && back <= 3 && 194 <= lead <= 244 && m.owed == 0 && m.constraint == 0
    ensures Owes(m, Owing(m, lead, at, back), Pending(lead, back), at)
  {
  }

  lemma WalkIsWindow(b: seq<byte>, at: nat, m: Machine)
    requires at <= |b| && (at == 0 || at >= 3) && Run(b, at).Some?
    requires m.owed == 0 && m.constraint == 0
    ensures Walk(b, at, 1, m).Go? && Owes(m, Walk(b, at, 1, m).machine, Run(b, at).value, at)
  {
    RunIsWindow(b, at);
    if at > 0 {
      var p1, p2, p3 := b[at - 1], b[at - 2], b[at - 3];
      NoBadLead(b, at, at - 1);
      NoBadLead(b, at, at - 2);
      NoBadLead(b, at, at - 3);
      assert Run(b, at).value == Window(p3, p2, p1);
      if !Tail(p1) {
        WalkStops(b, at, 1, m);
      } else {
        assert Walk(b, at, 1, m) == Walk(b, at, 2, m);
        if !Tail(p2) {
          WalkStops(b, at, 2, m);
        } else {
          assert Walk(b, at, 2, m) == Walk(b, at, 3, m);
          if !Tail(p3) {
            WalkStops(b, at, 3, m);
          } else {
            assert Walk(b, at, 3, m) == Walk(b, at, 4, m);
          }
        }
      }
    }
  }

  lemma WalkStops(b: seq<byte>, at: nat, back: nat, m: Machine)
    requires 0 < back <= at <= |b| && back <= 3 && m.owed == 0 && m.constraint == 0
    requires !Tail(b[at - back]) && !BadLead(b[at - back])
    ensures Walk(b, at, back, m).Go? && Owes(m, Walk(b, at, back, m).machine, Pending(b[at - back], back), at)
  {
    if b[at - back] >= 128 {
      OwingIsPending(m, b[at - back], at, back);
    }
  }

  /** Re-seeding turns the block state into the byte state, or reports the bad lead
      that ended the last clean block. */
  lemma SeedFollows(b: seq<byte>, at: nat, capacity: nat, m: Machine, words: seq<nat>)
    requires at <= |b| && (at == 0 || at >= 3) && InBlock(b, at, capacity, m, words)
    ensures var r := Walk(b, at, 1, m);
            r.Return? ==> Scanned(b, at, capacity) == Stopped(r.status, r.position, words)
    ensures var r := Walk(b, at, 1, m);
            r.Go? ==> InStep(b, at, capacity, r.machine, words) && r.machine.written == m.written
  {
    if Scanned(b, at, capacity).Running? {
      RunningUtf8(b, at, capacity);
      WalkIsWindow(b, at, m);
    }
  }

  // ----- a block -----

  function EventLanes(block: Vec): (mask: seq<bool>)
    ensures |mask| == 16
  {
    seq(16, i requires 0 <= i < 16 => AsciiEvent(block[i]))
  }

  function HighLanes(block: Vec): (mask: seq<bool>)
    ensures |mask| == 16
  {
    seq(16, i requires 0 <= i < 16 => block[i] >= 128)
  }

  function OrLanes(a: seq<bool>, b: seq<bool>): (mask: seq<bool>)
    requires |a| == |b| == 16
    ensures |mask| == 16
  {
    seq(16, i requires 0 <= i < 16 => a[i] || b[i])
  }

  /** After a byte below 128 the accepted text is at a boundary. */
  lemma AsciiEnds(b: seq<byte>, at: nat)
    requires at <= |b| && Clean(b, at) && (at > 0 ==> b[at - 1] < 128)
    ensures Boundary(b, at)
  {
    CleanIffAccepted(b, at);
    RunIsWindow(b, at);
  }

  /** Classifies sixteen bytes: either the block is clean and `mask` marks its events,
      or it holds a fault. */
  method Classify(source: seq<byte>, at: nat, previous: Vec, previousNonAscii: bool)
    returns (mask: seq<bool>, fault: bool, nonAscii: bool)
    requires at + 16 <= |source| && Clean(source, at) && Precedes(previous, source, at)
    requires previousNonAscii == (at > 0 && source[at - 1] >= 128)
    ensures |mask| == 16
    ensures !fault ==> Marks(true, source, at, mask) && nonAscii == (source[at + 15] >= 128)
    ensures fault ==> !Clean(source, at + 16)
  {
    var block := Load(source, at);
    mask := EventLanes(block);
    var validate := true;
    if !previousNonAscii {
      var high := HighLanes(block);
      var either := OrLanes(mask, high);
      NibblesSpread(either);
      validate := Nibbles(Lanes(either)) != ZERO && high != seq(16, _ => false);
      if !validate {
        NoHighLane(source, at, either, high);
        mask := either;
      }
    }
    if validate {
      BlockClean(previous, source, at);
      fault := Max(Faults(previous, block)) != 0;
    } else {
      AsciiEnds(source, at);
      AsciiBlock(source, at);
      fault := false;
    }
    nonAscii := validate && block[15] >= 128;
  }

  lemma NoHighLane(b: seq<byte>, at: nat, either: seq<bool>, high: seq<bool>)
    requires at + 16 <= |b| && high == HighLanes(Load(b, at)) && either == OrLanes(EventLanes(Load(b, at)), high)
    requires Spread(either, 0, 2) == ZERO || high == seq(16, _ => false)
    ensures forall i :: 0 <= i < 16 ==> !high[i] && either[i] == AsciiEvent(b[at + i])
    ensures Max(Load(b, at)) < 0x80 && b[at + 15] < 128
  {
    if Spread(either, 0, 2) == ZERO {
      NoLaneLeft(either, 0, 2);
    }
    var block := Load(b, at);
    forall i | 0 <= i < 16 ensures !high[i] && block[i] == b[at + i] && block[i] < 128 {
      assert !either[i] || high == seq(16, _ => false);
    }
    MaxReaches(block, 0x80);
  }

  // ----- the scanner -----

  /** What the block loop keeps until it re-seeds. */
  ghost predicate BlockLoop(b: seq<byte>, at: nat, capacity: nat, m: Machine, words: seq<nat>,
                            previous: Vec, previousNonAscii: bool)
  {
    && at <= |b| && (at == 0 || at >= 16)
    && Clean(b, at) && Precedes(previous, b, at)
    && previousNonAscii == (at > 0 && b[at - 1] >= 128)
    && InBlock(b, at, capacity, m, words)
  }

  lemma BlockLoopStarts(b: seq<byte>, capacity: nat)
    ensures BlockLoop(b, 0, capacity, POWER_ON, [], Splat(0), false)
  {
  }

  /** A clean block drained to its end: the next block may follow. */
  lemma BlockLoopTurns(b: seq<byte>, at: nat, mask: seq<bool>, capacity: nat, m: Machine, words: seq<nat>,
                       previous: Vec, previousNonAscii: bool)
    requires |b| < FLAG && |mask| == 16 && Marks(true, b, at, mask)
    requires BlockLoop(b, at, capacity, m, words, previous, previousNonAscii)
    ensures var d := Drains(b, at, mask, 0, capacity, m, words);
            d.stop.None? ==>
              BlockLoop(b, at + 16, capacity, d.machine, d.words, Load(b, at), b[at + 15] >= 128)
    ensures var d := Drains(b, at, mask, 0, capacity, m, words);
            d.stop.Some? ==> Answer(b, capacity) == Stopped(d.stop.value.0, d.stop.value.1, d.words)
  {
    DrainsFollow(true, b, at, mask, 0, capacity, m, words);
    LoadPrecedes(b, at);
    if Drains(b, at, mask, 0, capacity, m, words).stop.Some? {
      StoppedStays(b, at + 16, |b|, capacity);
    }
  }

  /** The byte path from `at` to the end of the text. */
  function ByteLoop(b: seq<byte>, at: nat, capacity: nat, m: Machine, words: seq<nat>): Progress
    requires at <= |b|
    decreases |b| - at
  {
    if at == |b| then
      if m.owed != 0 then Stopped(STATUS_UTF8, m.lastNonAscii + 2, words) else Stopped(STATUS_OK, 0, words)
    else
      var d := Drains(b, at, [IsEvent(b[at])], 0, capacity, m, words);
      if d.stop.Some? then Stopped(d.stop.value.0, d.stop.value.1, d.words)
      else ByteLoop(b, at + 1, capacity, d.machine, d.words)
  }

  lemma {:induction false} ByteLoopFollows(b: seq<byte>, at: nat, capacity: nat, m: Machine, words: seq<nat>)
    requires at <= |b| < FLAG && InStep(b, at, capacity, m, words)
    ensures ByteLoop(b, at, capacity, m, words) == Answer(b, capacity)
    decreases |b| - at
  {
    if at < |b| {
      var mask := [IsEvent(b[at])];
      var d := Drains(b, at, mask, 0, capacity, m, words);
      DrainsFollow(false, b, at, mask, 0, capacity, m, words);
      assert Followed(false, b, at + 1, capacity, d);
      if d.stop.Some? {
        StoppedStays(b, at + 1, |b|, capacity);
      } else {
        ByteLoopFollows(b, at + 1, capacity, d.machine, d.words);
      }
    }
  }

  lemma SeedTurns(b: seq<byte>, at: nat, capacity: nat, m: Machine, words: seq<nat>,
                  previous: Vec, previousNonAscii: bool)
    requires |b| < FLAG && BlockLoop(b, at, capacity, m, words, previous, previousNonAscii)
    ensures var r := Walk(b, at, 1, m);
            r.Return? ==> Answer(b, capacity) == Stopped(r.status, r.position, words)
    ensures var r := Walk(b, at, 1, m);
            r.Go? ==>
              && r.machine.written == m.written
              && ByteLoop(b, at, capacity, r.machine, words) == Answer(b, capacity)
  {
    SeedFollows(b, at, capacity, m, words);
    match Walk(b, at, 1, m)
    case Return(_, _) => StoppedStays(b, at, |b|, capacity);
    case Go(next, _) => ByteLoopFollows(b, at, capacity, next, words);
  }

  /** One block: validated, classified and drained, unless it holds a fault. */
  method BlockTurn(source: seq<byte>, at: nat, tape: array<nat>, capacity: nat, m: Machine,
                   previous: Vec, previousNonAscii: bool)
    returns (next: Machine, stop: Option<(nat, nat)>, fault: bool, nonAscii: bool)
    requires |source| < FLAG && at + 16 <= |source| && m.written <= capacity <= tape.Length
    requires BlockLoop(source, at, capacity, m, tape[..m.written], previous, previousNonAscii)
    modifies tape
    ensures m.written <= next.written <= capacity
    ensures forall i :: next.written <= i < tape.Length ==> tape[i] == old(tape[i])
    ensures fault ==> next == m && tape[..] == old(tape[..])
    ensures !fault && stop.None? ==>
              BlockLoop(source, at + 16, capacity, next, tape[..next.written], Load(source, at), nonAscii)
    ensures !fault && stop.Some? ==>
              Answer(source, capacity) == Stopped(stop.value.0, stop.value.1, tape[..next.written])
  {
    var lanes;
    lanes, fault, nonAscii := Classify(source, at, previous, previousNonAscii);
    if fault {
      return m, None, fault, nonAscii;
    }
    BlockLoopTurns(source, at, lanes, capacity, m, tape[..m.written], previous, previousNonAscii);
    next, stop := Drain(source, at, lanes, 2, tape, capacity, m);
  }

  /** One byte of the byte path. */
  method ByteTurn(source: seq<byte>, at: nat, tape: array<nat>, capacity: nat, m: Machine)
    returns (next: Machine, stop: Option<(nat, nat)>)
    requires at < |source| && m.written <= capacity <= tape.Length
    requires ByteLoop(source, at, capacity, m, tape[..m.written]) == Answer(source, capacity)
    modifies tape
    ensures m.written <= next.written <= capacity
    ensures forall i :: next.written <= i < tape.Length ==> tape[i] == old(tape[i])
    ensures stop.None? ==> ByteLoop(source, at + 1, capacity, next, tape[..next.written]) == Answer(source, capacity)
    ensures stop.Some? ==> Answer(source, capacity) == Stopped(stop.value.0, stop.value.1, tape[..next.written])
  {
    next, stop := Drain(source, at, [IsEvent(source[at])], 0, tape, capacity, m);
  }

  /** The loop over blocks and then bytes answers what the byte-at-a-time scan answers. */
  method ScanLoop(source: seq<byte>, tape: array<nat>, capacity: nat)
    returns (written: nat, status: nat, position: nat)
    requires |source| < FLAG && capacity <= tape.Length
    modifies tape
    ensures written <= capacity
    ensures Answer(source, capacity) == Stopped(status, position, tape[..written])
    ensures forall i :: written <= i < tape.Length ==> tape[i] == old(tape[i])
  {
    var at, m := 0, POWER_ON;
    var seeded, vectorsOff, previousNonAscii, previous := false, false, false, Splat(0);
    BlockLoopStarts(source, capacity);
    while at < |source| || !seeded
      invariant at <= |source| && m.written <= capacity
      invariant forall i :: m.written <= i < tape.Length ==> tape[i] == old(tape[i])
      invariant !seeded ==> !vectorsOff && BlockLoop(source, at, capacity, m, tape[..m.written], previous, previousNonAscii)
      invariant seeded ==> vectorsOff || at + 16 > |source|
      invariant seeded ==> ByteLoop(source, at, capacity, m, tape[..m.written]) == Answer(source, capacity)
      decreases |source| - at, !seeded
    {
      if !vectorsOff && at + 16 <= |source| {
        var next, stop, fault, nonAscii := BlockTurn(source, at, tape, capacity, m, previous, previousNonAscii);
        m := next;
        if !fault {
          if stop.Some? {
            return m.written, stop.value.0, stop.value.1;
          }
          previous, previousNonAscii, at := Load(source, at), nonAscii, at + 16;
          continue;
        }
        vectorsOff := true;
      }
      if !seeded {
        seeded := true;
        SeedTurns(source, at, capacity, m, tape[..m.written], previous, previousNonAscii);
        var r := Seed(source, at, m);
        if r.Return? {
          return m.written, r.status, r.position;
        }
        m := r.machine;
      } else {
        var next, stop := ByteTurn(source, at, tape, capacity, m);
        m := next;
        if stop.Some? {
          return m.written, stop.value.0, stop.value.1;
        }
        at := at + 1;
      }
    }
    if m.owed != 0 {
      return m.written, STATUS_UTF8, m.lastNonAscii + 2;
    }
    return m.written, STATUS_OK, 0;
  }

  /** For every text and capacity, the tape, the status and the position are those the text
      itself calls for, and the tape past the words is untouched. */
  method HandScan(source: seq<byte>, tape: array<nat>, capacity: nat)
    returns (written: nat, status: nat, position: nat)
    requires |source| < FLAG && capacity <= tape.Length
    modifies tape
    ensures written <= capacity
    ensures Answers(source, capacity, status, position, tape[..written])
    ensures Answer(source, capacity) == Stopped(status, position, tape[..written])
    ensures forall i :: written <= i < tape.Length ==> tape[i] == old(tape[i])
  {
    written, status, position := ScanLoop(source, tape, capacity);
    AnswerIs(source, capacity);
  }
}
