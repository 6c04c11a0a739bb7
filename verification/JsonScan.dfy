/**
 What a JSON structural scan answers, stated twice: as an automaton that looks at
 every byte once, and declaratively over the whole text.  `JsonScanNeon` proves the
 sixteen-byte scanner against the first; the lemmas here prove the first against
 the second.
 */
module JsonScan {
  import opened Wrappers
  import opened Utf8

  const QUOTE: byte := 34
  const BACKSLASH: byte := 92
  const FLAG: nat := 0x8000_0000

  const STATUS_OK: nat := 0
  const STATUS_FULL: nat := 1
  const STATUS_UTF8: nat := 2
  const STATUS_CONTROL: nat := 3
  const STATUS_BACKSLASH: nat := 4

  predicate Structural(c: byte)
  {
    c == 123 || c == 125 || c == 91 || c == 93 || c == 58 || c == 44
  }

  predicate Whitespace(c: byte) { c == 9 || c == 10 || c == 13 }

  // ----- one byte at a time -----

  /** Between two bytes: the UTF-8 state, whether a string is open and has had a
      backslash, whether an odd run of backslashes ends here, and the words so far. */
  datatype Scan = Scan(utf: State, inString: bool, escaped: bool, odd: bool, tape: seq<nat>)

  datatype Progress =
    | Running(scan: Scan)
    | Stopped(status: nat, position: nat, tape: seq<nat>)

  const INITIAL := Scan(START, false, false, false, [])

  /** Reads the byte `c` at `p`.  Positions of faults count from one. */
  function Advance(s: Scan, c: byte, p: nat, capacity: nat): Progress
  {
    match Utf8.Step(s.utf, c)
    case None => Stopped(STATUS_UTF8, p + 1, s.tape)
    case Some(utf) =>
      if c == BACKSLASH then
        if s.inString then Running(s.(utf := utf, odd := !s.odd, escaped := true))
        else Stopped(STATUS_BACKSLASH, p + 1, s.tape)
      else if c == QUOTE && !s.odd then
        if |s.tape| >= capacity then Stopped(STATUS_FULL, p + 1, s.tape)
        else
          var word := if s.inString && s.escaped then p + FLAG else p;
          Running(Scan(utf, !s.inString, s.inString && s.escaped, false, s.tape + [word]))
      else if c < 32 && (s.inString || !Whitespace(c)) then Stopped(STATUS_CONTROL, p + 1, s.tape)
      else if Structural(c) && !s.inString then
        if |s.tape| >= capacity then Stopped(STATUS_FULL, p + 1, s.tape)
        else Running(s.(utf := utf, odd := false, tape := s.tape + [p]))
      else Running(s.(utf := utf, odd := false))
  }

  /** The scan of the first `n` bytes. */
  function Scanned(b: seq<byte>, n: nat, capacity: nat): Progress
    requires n <= |b|
  {
    if n == 0 then Running(INITIAL)
    else match Scanned(b, n - 1, capacity)
      case Running(s) => Advance(s, b[n - 1], n - 1, capacity)
      case stopped => stopped
  }

  /** The answer for the whole text: running off its end inside a scalar is a fault
      at the byte that is missing. */
  function Answer(b: seq<byte>, capacity: nat): (r: Progress)
    ensures r.Stopped?
  {
    match Scanned(b, |b|, capacity)
    case Running(s) =>
      if s.utf.owed != 0 then Stopped(STATUS_UTF8, |b| + 1, s.tape) else Stopped(STATUS_OK, 0, s.tape)
    case stopped => stopped
  }

  lemma {:induction false} StoppedStays(b: seq<byte>, m: nat, n: nat, capacity: nat)
    requires m <= n <= |b| && Scanned(b, m, capacity).Stopped?
    ensures Scanned(b, n, capacity) == Scanned(b, m, capacity)
    decreases n
  {
    if m < n {
      StoppedStays(b, m, n - 1, capacity);
    }
  }

  /** While the scan runs, its UTF-8 part is the automaton's, and an odd run of
      backslashes is inside a string. */
  lemma {:induction false} RunningUtf8(b: seq<byte>, n: nat, capacity: nat)
    requires n <= |b| && Scanned(b, n, capacity).Running?
    ensures Run(b, n) == Some(Scanned(b, n, capacity).scan.utf)
    ensures Scanned(b, n, capacity).scan.odd ==> Scanned(b, n, capacity).scan.inString
  {
    if n > 0 {
      RunningUtf8(b, n - 1, capacity);
    }
  }

  // ----- the same, declaratively -----

  /** The length of the run of backslashes ending just before `p`. */
  function SlashRun(b: seq<byte>, p: nat): nat
    requires p <= |b|
  {
    if p > 0 && b[p - 1] == BACKSLASH then 1 + SlashRun(b, p - 1) else 0
  }

  predicate UnescapedQuote(b: seq<byte>, p: nat)
    requires p < |b|
  {
    b[p] == QUOTE && SlashRun(b, p) % 2 == 0
  }

  function QuotesBefore(b: seq<byte>, n: nat): nat
    requires n <= |b|
  {
    if n == 0 then 0 else QuotesBefore(b, n - 1) + if UnescapedQuote(b, n - 1) then 1 else 0
  }

  /** An odd number of unescaped quotes stand before `p`. */
  predicate InString(b: seq<byte>, p: nat)
    requires p <= |b|
  {
    QuotesBefore(b, p) % 2 == 1
  }

  ghost predicate NoQuoteBetween(b: seq<byte>, q: nat, p: nat)
    requires p <= |b|
  {
    forall r :: q < r < p ==> !UnescapedQuote(b, r)
  }

  /** A backslash stands between the last unescaped quote before `p` and `p`. */
  ghost predicate SlashSinceQuote(b: seq<byte>, p: nat)
    requires p <= |b|
  {
    exists q :: 0 <= q < p && b[q] == BACKSLASH && NoQuoteBetween(b, q, p)
  }

  /** `p` gets a word: an unescaped quote, or a structural character outside strings. */
  predicate Recorded(b: seq<byte>, p: nat)
    requires p < |b|
  {
    UnescapedQuote(b, p) || (Structural(b[p]) && !InString(b, p))
  }

  /** Only the closing quote of a string with a backslash in it is flagged. */
  ghost function Word(b: seq<byte>, p: nat): nat
    requires p < |b|
  {
    if UnescapedQuote(b, p) && InString(b, p) && SlashSinceQuote(b, p) then p + FLAG else p
  }

  /** The words of the recorded positions below `n`, in increasing order. */
  ghost function Tape(b: seq<byte>, n: nat): seq<nat>
    requires n <= |b|
  {
    if n == 0 then [] else Tape(b, n - 1) + if Recorded(b, n - 1) then [Word(b, n - 1)] else []
  }

  /** Backslashes stand in strings; control characters are whitespace outside them. */
  predicate Allowed(b: seq<byte>, p: nat)
    requires p < |b|
  {
    && (b[p] == BACKSLASH ==> InString(b, p))
    && (b[p] < 32 ==> !InString(b, p) && Whitespace(b[p]))
  }

  /** The first `n` bytes hold no fault. */
  ghost predicate Faultless(b: seq<byte>, n: nat, capacity: nat)
    requires n <= |b|
  {
    && Run(b, n).Some?
    && (forall p :: 0 <= p < n ==> Allowed(b, p))
    && |Tape(b, n)| <= capacity
  }

  lemma SlashSinceQuoteStep(b: seq<byte>, n: nat)
    requires n < |b|
    ensures SlashSinceQuote(b, n + 1) <==>
              b[n] == BACKSLASH || (SlashSinceQuote(b, n) && !UnescapedQuote(b, n))
  {
    if b[n] == BACKSLASH {
      assert NoQuoteBetween(b, n, n + 1);
    } else if SlashSinceQuote(b, n) && !UnescapedQuote(b, n) {
      var q :| 0 <= q < n && b[q] == BACKSLASH && NoQuoteBetween(b, q, n);
      assert NoQuoteBetween(b, q, n + 1);
    }
  }

  /** The automaton's variables say what the text says. */
  ghost predicate Means(s: Scan, b: seq<byte>, n: nat)
    requires n <= |b|
  {
    && Run(b, n) == Some(s.utf)
    && s.inString == InString(b, n)
    && (s.inString ==> (s.escaped <==> SlashSinceQuote(b, n)))
    && s.odd == (SlashRun(b, n) % 2 == 1)
    && (s.odd ==> s.inString)
    && s.tape == Tape(b, n)
  }

  /** Why a scan stops at `p` with a given status. */
  ghost predicate FaultAtByte(b: seq<byte>, p: nat, capacity: nat, status: nat)
    requires p < |b|
  {
    if Run(b, p + 1).None? then status == STATUS_UTF8
    else if b[p] == BACKSLASH then status == STATUS_BACKSLASH && !InString(b, p)
    else if Recorded(b, p) then status == STATUS_FULL && |Tape(b, p)| == capacity
    else status == STATUS_CONTROL && !Allowed(b, p)
  }

  /** How the text's own notions change over one byte. */
  lemma TextStep(b: seq<byte>, n: nat)
    requires n < |b|
    ensures b[n] == BACKSLASH ==>
              && (SlashRun(b, n + 1) % 2 == 1 <==> SlashRun(b, n) % 2 == 0)
              && InString(b, n + 1) == InString(b, n)
              && SlashSinceQuote(b, n + 1)
    ensures b[n] != BACKSLASH ==> SlashRun(b, n + 1) == 0
    ensures UnescapedQuote(b, n) ==> InString(b, n + 1) == !InString(b, n) && !SlashSinceQuote(b, n + 1)
    ensures !UnescapedQuote(b, n) && b[n] != BACKSLASH ==>
              && InString(b, n + 1) == InString(b, n)
              && (SlashSinceQuote(b, n + 1) <==> SlashSinceQuote(b, n))
  {
    SlashSinceQuoteStep(b, n);
  }

  /** One byte keeps the meaning, or stops for the reason the text gives. */
  lemma AdvanceMeans(s: Scan, b: seq<byte>, n: nat, capacity: nat)
    requires n < |b| && Means(s, b, n) && |s.tape| <= capacity
    ensures var r := Advance(s, b[n], n, capacity);
            r.Running? ==> Means(r.scan, b, n + 1) && |r.scan.tape| <= capacity && Allowed(b, n)
    ensures var r := Advance(s, b[n], n, capacity);
            r.Stopped? ==> r.position == n + 1 && r.tape == Tape(b, n) && FaultAtByte(b, n, capacity, r.status)
  {
    TextStep(b, n);
    var c := b[n];
    if c == BACKSLASH {
    } else if c == QUOTE {
    } else if c < 32 {
    } else if Structural(c) {
    } else {
    }
  }

  /** A fault at `n` is still there after it. */
  lemma FaultStays(b: seq<byte>, n: nat, capacity: nat, status: nat)
    requires n < |b| && FaultAtByte(b, n, capacity, status)
    ensures !Faultless(b, n + 1, capacity)
  {
    if Run(b, n + 1).Some? {
      if b[n] != BACKSLASH && Recorded(b, n) {
        assert |Tape(b, n + 1)| == capacity + 1;
      } else {
        assert !Allowed(b, n);
      }
    }
  }

  /** The automaton runs exactly while the text has no fault. */
  lemma {:induction false} ScannedMeans(b: seq<byte>, n: nat, capacity: nat)
    requires n <= |b|
    ensures Scanned(b, n, capacity).Running? <==> Faultless(b, n, capacity)
    ensures Scanned(b, n, capacity).Running? ==> Means(Scanned(b, n, capacity).scan, b, n)
  {
    if n > 0 {
      ScannedMeans(b, n - 1, capacity);
      if Scanned(b, n - 1, capacity).Running? {
        RunningMeans(b, n - 1, capacity);
      } else {
        assert |Tape(b, n)| >= |Tape(b, n - 1)|;
      }
    }
  }

  lemma RunningMeans(b: seq<byte>, n: nat, capacity: nat)
    requires n < |b| && Faultless(b, n, capacity)
    requires Scanned(b, n, capacity).Running? && Means(Scanned(b, n, capacity).scan, b, n)
    ensures Scanned(b, n + 1, capacity).Running? <==> Faultless(b, n + 1, capacity)
    ensures Scanned(b, n + 1, capacity).Running? ==> Means(Scanned(b, n + 1, capacity).scan, b, n + 1)
  {
    var s := Scanned(b, n, capacity).scan;
    AdvanceMeans(s, b, n, capacity);
    var r := Advance(s, b[n], n, capacity);
    assert Scanned(b, n + 1, capacity) == r;
    if r.Stopped? {
      FaultStays(b, n, capacity, r.status);
    }
  }

  /** Status 0 means the text is well-formed UTF-8, every backslash is in a string,
      every control character is whitespace outside strings, and the words fit; the
      tape is then exactly the recorded positions. */
  lemma AnswerOkIff(b: seq<byte>, capacity: nat)
    ensures Answer(b, capacity).status == STATUS_OK <==>
              && WellFormed(b, 0, |b|)
              && (forall p :: 0 <= p < |b| ==> Allowed(b, p))
              && |Tape(b, |b|)| <= capacity
    ensures Answer(b, capacity).status == STATUS_OK ==> Answer(b, capacity) == Stopped(STATUS_OK, 0, Tape(b, |b|))
  {
    ScannedMeans(b, |b|, capacity);
    WellFormedIffBoundary(b, 0, |b|);
    if Run(b, |b|).Some? {
      RunLegal(b, |b|);
    }
    match Scanned(b, |b|, capacity)
    case Running(_) =>
    case Stopped(_, _, _) => FirstFault(b, |b|, capacity);
  }

  /** A stopped scan names the first faulty byte, and the words before it. */
  lemma {:induction false} FirstFault(b: seq<byte>, n: nat, capacity: nat)
    requires n <= |b| && Scanned(b, n, capacity).Stopped?
    ensures var r := Scanned(b, n, capacity);
            && 1 <= r.position <= n
            && Faultless(b, r.position - 1, capacity)
            && FaultAtByte(b, r.position - 1, capacity, r.status)
            && r.tape == Tape(b, r.position - 1)
  {
    if Scanned(b, n - 1, capacity).Stopped? {
      FirstFault(b, n - 1, capacity);
      assert Scanned(b, n, capacity) == Scanned(b, n - 1, capacity);
    } else {
      FaultHere(b, n - 1, capacity);
    }
  }

  lemma FaultHere(b: seq<byte>, n: nat, capacity: nat)
    requires n < |b| && Scanned(b, n, capacity).Running? && Scanned(b, n + 1, capacity).Stopped?
    ensures var r := Scanned(b, n + 1, capacity);
            && r.position == n + 1 && r.tape == Tape(b, n)
            && Faultless(b, n, capacity) && FaultAtByte(b, n, capacity, r.status)
  {
    ScannedMeans(b, n, capacity);
    AdvanceMeans(Scanned(b, n, capacity).scan, b, n, capacity);
  }

  // ----- the whole answer -----

  /** What the scan of a whole text must answer: all the words and status 0; all the words
      and the missing byte, when the text ends inside a scalar; or the first faulty byte,
      counted from one, its reason, and the words before it. */
  ghost predicate Answers(b: seq<byte>, capacity: nat, status: nat, position: nat, tape: seq<nat>)
  {
    if !Faultless(b, |b|, capacity) then
      && 1 <= position <= |b| && Faultless(b, position - 1, capacity)
      && FaultAtByte(b, position - 1, capacity, status) && tape == Tape(b, position - 1)
    else if WellFormed(b, 0, |b|) then status == STATUS_OK && position == 0 && tape == Tape(b, |b|)
    else status == STATUS_UTF8 && position == |b| + 1 && tape == Tape(b, |b|)
  }

  lemma AnswerIs(b: seq<byte>, capacity: nat)
    ensures var r := Answer(b, capacity); Answers(b, capacity, r.status, r.position, r.tape)
  {
    ScannedMeans(b, |b|, capacity);
    WellFormedIffBoundary(b, 0, |b|);
    if Run(b, |b|).Some? {
      RunLegal(b, |b|);
    }
    match Scanned(b, |b|, capacity)
    case Running(_) =>
    case Stopped(_, _, _) => FirstFault(b, |b|, capacity);
  }

  lemma {:induction false} FaultlessPrefix(b: seq<byte>, m: nat, n: nat, capacity: nat)
    requires m <= n <= |b| && Faultless(b, n, capacity)
    ensures Faultless(b, m, capacity)
    decreases n
  {
    if m < n {
      RunPrefix(b, n - 1, n);
      FaultlessPrefix(b, m, n - 1, capacity);
    }
  }

  /** No two answers meet that. */
  lemma AnswersUnique(b: seq<byte>, capacity: nat, s: nat, p: nat, t: seq<nat>, s': nat, p': nat, t': seq<nat>)
    requires Answers(b, capacity, s, p, t) && Answers(b, capacity, s', p', t')
    ensures s == s' && p == p' && t == t'
  {
    if !Faultless(b, |b|, capacity) {
      FaultStays(b, p - 1, capacity, s);
      FaultStays(b, p' - 1, capacity, s');
      if p < p' { FaultlessPrefix(b, p, p' - 1, capacity); }
      if p' < p { FaultlessPrefix(b, p', p - 1, capacity); }
    }
  }
}
