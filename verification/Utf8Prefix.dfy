/** `hand_utf8_valid_prefix`: sixteen bytes at a time, then the scalar ladder. */
module Utf8Prefix {
  import opened Wrappers
  import opened Utf8
  import opened Neon

  /** The bytes of a block that leave a scalar unfinished exceed these limits. */
  function IncompleteLimit(i: nat): byte
  {
    if i == 13 then 0xEF else if i == 14 then 0xDF else if i == 15 then 0xBF else 0xFF
  }

  function AboveLimits(previous: Vec): Vec
  {
    seq(16, i requires 0 <= i < 16 => if previous[i] > IncompleteLimit(i) then 0xFF else 0)
  }

  /** After three accepted bytes, one above its limit is one that leaves a scalar open. */
  lemma LimitsMean(s: State, p3: byte, p2: byte, p1: byte)
    requires Legal(s) && (s.owed == 0 ==> s == START) && Step3(s, p3, p2, p1).Some?
    ensures p3 > 0xEF || p2 > 0xDF || p1 > 0xBF <==> Step3(s, p3, p2, p1).value != START
  {
  }

  lemma LastThreeLanes(previous: Vec, b: seq<byte>, at: nat)
    requires 16 <= at <= |b| && Precedes(previous, b, at)
    ensures Max(AboveLimits(previous)) == 0 <==> !(At(b, at - 3) > 0xEF || At(b, at - 2) > 0xDF || At(b, at - 1) > 0xBF)
  {
    var v := AboveLimits(previous);
    MaxReaches(v, 1);
    assert previous[13] == At(b, at - 3) && previous[14] == At(b, at - 2) && previous[15] == At(b, at - 1);
    assert (exists i :: 0 <= i < 16 && v[i] >= 1) <==> v[13] >= 1 || v[14] >= 1 || v[15] >= 1;
  }

  /** The tail of the previous block is complete when no lane exceeds its limit. */
  lemma CompleteTail(previous: Vec, b: seq<byte>, at: nat)
    requires 16 <= at <= |b| && Precedes(previous, b, at)
    requires Run(b, at).Some? || BadTail(b, at)
    ensures Max(AboveLimits(previous)) == 0 <==> Boundary(b, at)
  {
    LastThreeLanes(previous, b, at);
    if Run(b, at).Some? {
      BeforeChain(b, at);
      RunPrefix(b, at - 3, at);
      RunLegal(b, at - 3);
      LimitsMean(Before(b, at - 3).value, At(b, at - 3), At(b, at - 2), At(b, at - 1));
    }
  }

  /** From three bytes back, the first byte that is not a continuation starts a scalar. */
  lemma StepBack(b: seq<byte>, stop: nat, r: nat)
    requires stop <= |b| && (stop == 0 || stop >= 3)
    requires Run(b, stop).Some? || BadTail(b, stop)
    requires stop - 3 <= r <= stop
    requires forall i :: stop - 3 <= i < r && 0 <= i ==> Tail(b[i])
    requires r < stop ==> !Tail(b[r])
    ensures Boundary(b, r)
  {
    if stop > 0 {
      if Run(b, stop).Some? {
        RunPrefix(b, r, stop);
        BeforeChain(b, stop);
        RunIsWindow(b, stop);
        if r < stop {
          RunPrefix(b, r + 1, stop);
          RunLegal(b, r);
        }
      } else if r < stop - 1 {
        RunPrefix(b, r, stop - 1);
        RunPrefix(b, r + 1, stop - 1);
        RunLegal(b, r);
      } else {
        assert r == stop - 1;
      }
    }
  }

  /** What the block loop keeps: the bytes before `at` are clean, `previous` is the
      block before `at`, and after a block of ASCII `at` is a scalar boundary. */
  ghost predicate Skipped(b: seq<byte>, at: nat, previous: Vec, previousAscii: bool)
  {
    && at <= |b| && (at == 0 || at >= 16)
    && Clean(b, at)
    && Precedes(previous, b, at)
    && (previousAscii ==> Boundary(b, at))
    && (at == 0 ==> previousAscii)
  }

  lemma SkipNone(b: seq<byte>)
    ensures Skipped(b, 0, Splat(0), true)
  {
  }

  lemma SkipValidated(b: seq<byte>, at: nat, previous: Vec, previousAscii: bool)
    requires Skipped(b, at, previous, previousAscii) && at + 16 <= |b|
    requires Max(Faults(previous, Load(b, at))) == 0
    ensures Skipped(b, at + 16, Load(b, at), false)
  {
    BlockClean(previous, b, at);
    LoadPrecedes(b, at);
  }

  lemma SkipAscii(b: seq<byte>, at: nat, previous: Vec, previousAscii: bool)
    requires Skipped(b, at, previous, previousAscii) && at + 16 <= |b|
    requires Max(Load(b, at)) < 0x80
    requires previousAscii || Max(AboveLimits(previous)) == 0
    ensures Skipped(b, at + 16, Load(b, at), true)
  {
    if !previousAscii {
      CleanIffAccepted(b, at);
      CompleteTail(previous, b, at);
    }
    AsciiBlock(b, at);
    LoadPrecedes(b, at);
  }

  /** Whole blocks are skipped only while every byte before them is accepted. */
  method SkipBlocks(source: seq<byte>) returns (at: nat)
    ensures at <= |source| && (at == 0 || at >= 16)
    ensures Run(source, at).Some? || BadTail(source, at)
  {
    var previous := Splat(0);
    var previousAscii := true;
    at := 0;
    SkipNone(source);
    while at + 16 <= |source|
      invariant Skipped(source, at, previous, previousAscii)
    {
      var input := Load(source, at);
      if Max(input) >= 0x80 {
        if Max(Faults(previous, input)) != 0 {
          break;
        }
        SkipValidated(source, at, previous, previousAscii);
        previousAscii := false;
      } else {
        if !previousAscii && Max(AboveLimits(previous)) != 0 {
          break;
        }
        SkipAscii(source, at, previous, previousAscii);
        previousAscii := true;
      }
      previous := input;
      at := at + 16;
    }
    CleanIffAccepted(source, at);
  }

  /** The ladder as the loop runs it. */
  method Climb(source: seq<byte>, start: nat) returns (answer: nat)
    requires start <= |source|
    ensures answer == Ladder(source, start)
  {
    var at := start;
    while at < |source|
      invariant at <= |source| && Ladder(source, at) == Ladder(source, start)
    {
      var lead := source[at];
      if lead < 128 {
        at := at + 1;
        continue;
      }
      var low: byte, high: byte, need := 128, 191, 0;
      if lead < 194 {
        return at;
      } else if lead < 224 {
        need := 1;
      } else if lead < 240 {
        need := 2;
        if lead == 224 { low := 160; } else if lead == 237 { high := 159; }
      } else if lead < 245 {
        need := 3;
        if lead == 240 { low := 144; } else if lead == 244 { high := 143; }
      } else {
        return at;
      }
      if at + 1 >= |source| || source[at + 1] < low || source[at + 1] > high { return at; }
      if need > 1 && (at + 2 >= |source| || source[at + 2] < 128 || source[at + 2] > 191) { return at; }
      if need > 2 && (at + 3 >= |source| || source[at + 3] < 128 || source[at + 3] > 191) { return at; }
      at := at + need + 1;
    }
    return |source|;
  }

  /** The answer is the ladder's from offset 0, so the longest well-formed prefix. */
  method HandUtf8ValidPrefix(source: seq<byte>) returns (answer: nat)
    requires |source| < 0x1_0000_0000
    ensures answer == Ladder(source, 0)
    ensures answer <= |source| && WellFormed(source, 0, answer)
    ensures forall m :: answer < m <= |source| ==> !WellFormed(source, 0, m)
  {
    var stop := SkipBlocks(source);
    var at := if stop >= 3 then stop - 3 else 0;
    while at < stop && at < |source| && 128 <= source[at] <= 191
      invariant stop - 3 <= at <= stop
      invariant forall i :: stop - 3 <= i < at && 0 <= i ==> Tail(source[i])
    {
      at := at + 1;
    }
    StepBack(source, stop, at);
    LadderResumes(source, 0, at);
    LadderIsLongest(source);
    answer := Climb(source, at);
  }
}
