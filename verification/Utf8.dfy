/**
 The UTF-8 rules the two NEON scanners share: the three-table lane check,
 a byte-at-a-time automaton, the scalar ladder, and the grammar of section 4 of
 RFC 3629.  The lemmas say when the first two agree.
 */
module Utf8 {
  import opened Wrappers

  type byte = bv8

  // ----- the grammar of RFC 3629, section 4 -----

  predicate Tail(c: byte) { 0x80 <= c <= 0xBF }

  /** One production of `UTF8-char`, spelt out as the RFC's table spells it. */
  predicate IsScalar(s: seq<byte>)
  {
    || (|s| == 1 && s[0] <= 0x7F)
    || (|s| == 2 && 0xC2 <= s[0] <= 0xDF && Tail(s[1]))
    || (|s| == 3 && s[0] == 0xE0 && 0xA0 <= s[1] <= 0xBF && Tail(s[2]))
    || (|s| == 3 && 0xE1 <= s[0] <= 0xEC && Tail(s[1]) && Tail(s[2]))
    || (|s| == 3 && s[0] == 0xED && 0x80 <= s[1] <= 0x9F && Tail(s[2]))
    || (|s| == 3 && 0xEE <= s[0] <= 0xEF && Tail(s[1]) && Tail(s[2]))
    || (|s| == 4 && s[0] == 0xF0 && 0x90 <= s[1] <= 0xBF && Tail(s[2]) && Tail(s[3]))
    || (|s| == 4 && 0xF1 <= s[0] <= 0xF3 && Tail(s[1]) && Tail(s[2]) && Tail(s[3]))
    || (|s| == 4 && s[0] == 0xF4 && 0x80 <= s[1] <= 0x8F && Tail(s[2]) && Tail(s[3]))
  }

  /** `b[i..n]` is a sequence of well-formed scalars. */
  ghost predicate WellFormed(b: seq<byte>, i: nat, n: nat)
    requires i <= n <= |b|
    decreases n - i
  {
    i == n || exists j :: i < j <= n && IsScalar(b[i..j]) && WellFormed(b, j, n)
  }

  // ----- the automaton: one byte at a time -----

  /** How many continuation bytes are owed, and the range the next one must fall in. */
  datatype State = State(owed: nat, low: byte, high: byte)

  const START := State(0, 0x80, 0xBF)

  ghost predicate Legal(s: State)
  {
    s.owed <= 3 && s.low >= 0x80 && s.high <= 0xBF
  }

  /** A byte that no well-formed text contains. */
  predicate BadLead(c: byte) { c == 0xC0 || c == 0xC1 || c >= 0xF5 }

  function Lead(c: byte): Option<State>
  {
    if c < 0x80 then Some(START)
    else if c < 0xC2 then None
    else if c <= 0xDF then Some(State(1, 0x80, 0xBF))
    else if c <= 0xEF then
      Some(State(2, if c == 0xE0 then 0xA0 else 0x80, if c == 0xED then 0x9F else 0xBF))
    else if c <= 0xF4 then
      Some(State(3, if c == 0xF0 then 0x90 else 0x80, if c == 0xF4 then 0x8F else 0xBF))
    else None
  }

  function Step(s: State, c: byte): Option<State>
  {
    if s.owed == 0 then Lead(c)
    else if s.low <= c <= s.high then Some(State(s.owed - 1, 0x80, 0xBF))
    else None
  }

  /** The automaton after the first `n` bytes; `None` once a byte was refused. */
  function Run(b: seq<byte>, n: nat): Option<State>
    requires n <= |b|
  {
    if n == 0 then Some(START)
    else match Run(b, n - 1)
      case None => None
      case Some(s) => Step(s, b[n - 1])
  }

  lemma {:induction false} RunLegal(b: seq<byte>, n: nat)
    requires n <= |b| && Run(b, n).Some?
    ensures Legal(Run(b, n).value)
    ensures Run(b, n).value.owed == 0 ==> Run(b, n).value == START
  {
    if n > 0 {
      RunLegal(b, n - 1);
    }
  }

  /** A refused byte is never forgiven. */
  lemma {:induction false} RunPrefix(b: seq<byte>, m: nat, n: nat)
    requires m <= n <= |b| && Run(b, n).Some?
    ensures Run(b, m).Some?
    decreases n
  {
    if m < n {
      RunPrefix(b, m, n - 1);
    }
  }

  /** The byte at `i`, with zeros standing before the text. */
  function At(b: seq<byte>, i: int): byte
    requires i < |b|
  {
    if i < 0 then 0 else b[i]
  }

  /** The automaton before byte `i`, with zeros standing before the text. */
  ghost function Before(b: seq<byte>, i: int): Option<State>
    requires i <= |b|
  {
    if i < 0 then Some(START) else Run(b, i)
  }

  lemma BeforeStep(b: seq<byte>, i: int)
    requires i < |b| && Before(b, i).Some?
    ensures Before(b, i + 1) == Step(Before(b, i).value, At(b, i))
  {
  }

  // ----- the lane check of the lookup validator -----

  function Byte1High(n: byte): byte
  {
    if n < 8 then 2 else if n < 12 then 128 else if n == 12 then 33
    else if n == 13 then 1 else if n == 14 then 21 else 73
  }

  function Byte1Low(n: byte): byte
  {
    if n == 0 then 231 else if n == 1 then 163 else if n < 4 then 131
    else if n == 4 then 139 else if n == 13 then 219 else 203
  }

  function Byte2High(n: byte): byte
  {
    if n < 8 then 1 else if n == 8 then 230 else if n == 9 then 174
    else if n < 12 then 186 else 1
  }

  /** One lane of `veorq_u8(special, required)`: zero when the lane finds no fault. */
  function Fault(p3: byte, p2: byte, p1: byte, c: byte): byte
  {
    var special := Byte1High(p1 >> 4) & Byte1Low(p1 & 15) & Byte2High(c >> 4);
    var required: byte := if p2 >= 0xE0 || p3 >= 0xF0 then 0x80 else 0;
    special ^ required
  }

  /** The lane of byte `i`, with zeros standing before the text. */
  function FaultAt(b: seq<byte>, i: nat): byte
    requires i < |b|
  {
    Fault(At(b, i - 3), At(b, i - 2), At(b, i - 1), b[i])
  }

  /** No lane below `n` finds a fault. */
  ghost predicate Clean(b: seq<byte>, n: nat)
    requires n <= |b|
  {
    forall i :: 0 <= i < n ==> FaultAt(b, i) == 0
  }

  /** Three accepted bytes in a row, starting in `s`. */
  function Step3(s: State, p3: byte, p2: byte, p1: byte): Option<State>
  {
    match Step(s, p3)
    case None => None
    case Some(s2) =>
      match Step(s2, p2)
      case None => None
      case Some(s1) => Step(s1, p1)
  }

  /** A lane after accepted bytes passes exactly the bytes the automaton passes,
      and the bad leads, which are faulted one lane later. */
  lemma FaultAfterGood(s: State, p3: byte, p2: byte, p1: byte, c: byte)
    requires Legal(s) && Step3(s, p3, p2, p1).Some?
    ensures var s0 := Step3(s, p3, p2, p1).value;
            Fault(p3, p2, p1, c) == 0 <==> Step(s0, c).Some? || (s0.owed == 0 && BadLead(c))
  {
  }

  lemma FaultAfterBadLead(p3: byte, p2: byte, p1: byte, c: byte)
    requires BadLead(p1)
    ensures Fault(p3, p2, p1, c) != 0
  {
  }

  /** The text so far is accepted but for a bad lead in its last byte. */
  ghost predicate BadTail(b: seq<byte>, n: nat)
    requires n <= |b|
  {
    n > 0 && BadLead(b[n - 1]) && Run(b, n - 1) == Some(START)
  }

  lemma BeforeChain(b: seq<byte>, n: nat)
    requires n <= |b| && Run(b, n).Some?
    ensures Before(b, n - 3).Some? && Legal(Before(b, n - 3).value)
    ensures Step3(Before(b, n - 3).value, At(b, n - 3), At(b, n - 2), At(b, n - 1)) == Run(b, n)
  {
    forall i | 0 <= i <= n ensures Run(b, i).Some? {
      RunPrefix(b, i, n);
    }
    BeforeStep(b, n - 3);
    BeforeStep(b, n - 2);
    BeforeStep(b, n - 1);
    if n >= 3 {
      RunLegal(b, n - 3);
    }
  }

  /** The three tables are exact: the lanes below `n` are clean precisely when the
      automaton accepts those bytes, or refuses only a bad lead in the last one. */
  lemma {:induction false} CleanIffAccepted(b: seq<byte>, n: nat)
    requires n <= |b|
    ensures Clean(b, n) <==> Run(b, n).Some? || BadTail(b, n)
  {
    if n > 0 {
      CleanIffAccepted(b, n - 1);
      var p3, p2, p1 := At(b, n - 4), At(b, n - 3), At(b, n - 2);
      assert Clean(b, n) <==> Clean(b, n - 1) && FaultAt(b, n - 1) == 0;
      if Run(b, n - 1).Some? {
        BeforeChain(b, n - 1);
        RunLegal(b, n - 1);
        FaultAfterGood(Before(b, n - 4).value, p3, p2, p1, b[n - 1]);
      } else if BadTail(b, n - 1) {
        FaultAfterBadLead(p3, p2, p1, b[n - 1]);
      }
    }
  }

  // ----- recovering the automaton from the last three bytes -----

  /** What the re-seeding walk finds `back` bytes before the end. */
  function Window(p3: byte, p2: byte, p1: byte): State
  {
    if !Tail(p1) then Pending(p1, 1)
    else if !Tail(p2) then Pending(p2, 2)
    else if !Tail(p3) then Pending(p3, 3)
    else START
  }

  /** What a scalar starting with `lead`, `back` bytes ago, still owes. */
  function Pending(lead: byte, back: nat): State
  {
    match Lead(lead)
    case None => START
    case Some(s) =>
      if s.owed < back then START
      else if back == 1 then s
      else State(s.owed - back + 1, 0x80, 0xBF)
  }

  /** The automaton's whole state is in the last three bytes. */
  lemma RunIsWindow(b: seq<byte>, n: nat)
    requires n <= |b| && Run(b, n).Some?
    ensures Run(b, n).value == Window(At(b, n - 3), At(b, n - 2), At(b, n - 1))
  {
    BeforeChain(b, n);
    Step3IsWindow(Before(b, n - 3).value, At(b, n - 3), At(b, n - 2), At(b, n - 1));
    RunLegal(b, n);
    if n >= 3 { RunLegal(b, n - 3); }
  }

  lemma Step3IsWindow(s: State, p3: byte, p2: byte, p1: byte)
    requires Legal(s) && (s.owed == 0 ==> s == START)
    requires Step3(s, p3, p2, p1).Some?
    ensures Step3(s, p3, p2, p1).value == Window(p3, p2, p1)
  {
  }

  /** No accepted text contains a bad lead. */
  lemma {:induction false} NoBadLead(b: seq<byte>, n: nat, i: nat)
    requires i < n <= |b| && Run(b, n).Some?
    ensures !BadLead(b[i])
  {
    RunPrefix(b, i + 1, n);
    if Run(b, i).Some? {
      RunLegal(b, i);
    }
  }

  // ----- the scalar ladder -----

  /** The length of the scalar the ladder finds at `at`, or 0 where it stops. */
  function Rung(b: seq<byte>, at: nat): (k: nat)
    requires at < |b|
    ensures at + k <= |b|
  {
    var lead := b[at];
    if lead < 128 then 1
    else if lead < 194 || lead >= 245 then 0
    else
      var need := if lead < 224 then 1 else if lead < 240 then 2 else 3;
      var low: byte := if lead == 224 then 160 else if lead == 240 then 144 else 128;
      var high: byte := if lead == 237 then 159 else if lead == 244 then 143 else 191;
      if at + 1 >= |b| || b[at + 1] < low || b[at + 1] > high then 0
      else if need > 1 && (at + 2 >= |b| || b[at + 2] < 128 || b[at + 2] > 191) then 0
      else if need > 2 && (at + 3 >= |b| || b[at + 3] < 128 || b[at + 3] > 191) then 0
      else need + 1
  }

  /** Where the ladder stops when started at `at`. */
  function Ladder(b: seq<byte>, at: nat): (n: nat)
    requires at <= |b|
    ensures at <= n <= |b|
    decreases |b| - at
  {
    if at == |b| || Rung(b, at) == 0 then at else Ladder(b, at + Rung(b, at))
  }

  ghost predicate Boundary(b: seq<byte>, n: nat)
    requires n <= |b|
  {
    Run(b, n) == Some(START)
  }

  /** The automaton over one scalar: it owes bytes strictly inside a rung, owes none
      at its end, and past a missing rung it never again owes none. */
  lemma RungRun(b: seq<byte>, at: nat)
    requires at < |b| && Boundary(b, at)
    ensures var k := Rung(b, at);
            && (k > 0 ==> Boundary(b, at + k))
            && (forall j :: at < j < at + k ==> !Boundary(b, j))
            && (k == 0 ==> forall j :: at < j <= |b| ==> !Boundary(b, j))
  {
    var k := Rung(b, at);
    Unroll(b, at);
    if k == 0 {
      forall j | at < j <= |b| ensures !Boundary(b, j) {
        if Boundary(b, j) {
          forall i | at <= i <= j ensures Run(b, i).Some? { RunPrefix(b, i, j); }
        }
      }
    }
  }

  /** Four steps of the automaton, written out. */
  lemma Unroll(b: seq<byte>, at: nat)
    requires at < |b| && Run(b, at).Some?
    ensures Run(b, at + 1) == Step(Run(b, at).value, b[at])
    ensures at + 2 <= |b| && Run(b, at + 1).Some? ==> Run(b, at + 2) == Step(Run(b, at + 1).value, b[at + 1])
    ensures at + 3 <= |b| && Run(b, at + 2).Some? ==> Run(b, at + 3) == Step(Run(b, at + 2).value, b[at + 2])
    ensures at + 4 <= |b| && Run(b, at + 3).Some? ==> Run(b, at + 4) == Step(Run(b, at + 3).value, b[at + 3])
  {
  }

  /** Starting the ladder at any scalar boundary gives the answer of starting it earlier. */
  lemma {:induction false} LadderResumes(b: seq<byte>, at: nat, r: nat)
    requires at <= r <= |b| && Boundary(b, at) && Boundary(b, r)
    ensures Ladder(b, at) == Ladder(b, r)
    decreases r - at
  {
    if at < r {
      RungRun(b, at);
      LadderResumes(b, at + Rung(b, at), r);
    }
  }

  lemma {:induction false} LadderBoundary(b: seq<byte>, at: nat)
    requires at <= |b| && Boundary(b, at)
    ensures Boundary(b, Ladder(b, at))
    ensures forall m :: Ladder(b, at) < m <= |b| ==> !Boundary(b, m)
    decreases |b| - at
  {
    if at < |b| {
      RungRun(b, at);
      if Rung(b, at) > 0 {
        LadderBoundary(b, at + Rung(b, at));
      }
    }
  }

  lemma RungIsScalar(b: seq<byte>, at: nat, j: nat)
    requires at < j <= |b|
    ensures IsScalar(b[at..j]) <==> Rung(b, at) == j - at
  {
    assert |b[at..j]| == j - at;
    assert forall i :: 0 <= i < j - at ==> b[at..j][i] == b[at + i];
  }

  /** The automaton decides the grammar of RFC 3629. */
  lemma {:induction false} WellFormedIffBoundary(b: seq<byte>, i: nat, n: nat)
    requires i <= n <= |b| && Boundary(b, i)
    ensures WellFormed(b, i, n) <==> Boundary(b, n)
    decreases n - i
  {
    if i < n {
      var k := Rung(b, i);
      RungRun(b, i);
      forall j | i < j <= n ensures IsScalar(b[i..j]) <==> k == j - i { RungIsScalar(b, i, j); }
      if k > 0 && i + k <= n {
        WellFormedIffBoundary(b, i + k, n);
      }
    }
  }

  // ----- what a refusal means -----

  /** Some text that starts with the first `n` bytes is well formed. */
  ghost predicate Completable(b: seq<byte>, n: nat)
    requires n <= |b|
  {
    exists more: seq<byte> :: WellFormed(b[..n] + more, 0, n + |more|)
  }

  /** The automaton reads only the bytes before it. */
  lemma {:induction false} RunAgrees(a: seq<byte>, b: seq<byte>, n: nat)
    requires n <= |a| && n <= |b| && a[..n] == b[..n]
    ensures Run(a, n) == Run(b, n)
  {
    if n > 0 {
      assert a[..n][..n - 1] == a[..n - 1] && b[..n][..n - 1] == b[..n - 1];
      assert a[n - 1] == a[..n][n - 1] && b[n - 1] == b[..n][n - 1];
      RunAgrees(a, b, n - 1);
    }
  }

  /** A state can be paid off: with `low` for the next byte and 0x80 after it. */
  lemma {:induction false} PaidOff(b: seq<byte>, n: nat) returns (more: seq<byte>)
    requires n <= |b| && Run(b, n).Some?
    ensures Boundary(b[..n] + more, n + |more|)
    decreases Run(b, n).value.owed
  {
    RunLegal(b, n);
    var state := Run(b, n).value;
    if state.owed == 0 {
      more := [];
      RunAgrees(b, b[..n], n);
      assert b[..n] + more == b[..n];
    } else {
      RunRange(b, n);
      var c := state.low;
      var longer := b[..n] + [c];
      RunAgrees(b, longer, n);
      assert Run(longer, n + 1) == Step(state, c);
      var rest := PaidOff(longer, n + 1);
      more := [c] + rest;
      assert longer[..n + 1] + rest == b[..n] + more;
    }
  }

  lemma {:induction false} RunRange(b: seq<byte>, n: nat)
    requires n <= |b| && Run(b, n).Some?
    ensures Run(b, n).value.low <= Run(b, n).value.high
  {
    if n > 0 {
      RunRange(b, n - 1);
    }
  }

  /** The automaton refuses a byte exactly when no text that starts so is well formed. */
  lemma CompletableIff(b: seq<byte>, n: nat)
    requires n <= |b|
    ensures Completable(b, n) <==> Run(b, n).Some?
  {
    if Completable(b, n) {
      var more: seq<byte> :| WellFormed(b[..n] + more, 0, n + |more|);
      var text := b[..n] + more;
      WellFormedIffBoundary(text, 0, n + |more|);
      RunPrefix(text, n, n + |more|);
      RunAgrees(b, text, n);
    }
    if Run(b, n).Some? {
      var more := PaidOff(b, n);
      WellFormedIffBoundary(b[..n] + more, 0, n + |more|);
    }
  }

  /** The ladder from offset 0 answers the longest well-formed prefix. */
  lemma LadderIsLongest(b: seq<byte>)
    ensures WellFormed(b, 0, Ladder(b, 0))
    ensures forall m :: Ladder(b, 0) < m <= |b| ==> !WellFormed(b, 0, m)
  {
    LadderBoundary(b, 0);
    forall m | 0 <= m <= |b| ensures WellFormed(b, 0, m) <==> Boundary(b, m) {
      WellFormedIffBoundary(b, 0, m);
    }
  }
}
