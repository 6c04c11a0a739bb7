/** The lane-wise meaning of the NEON operations the scanners use, on sixteen bytes. */
module Neon {
  import opened Wrappers
  import opened Utf8

  type Vec = v: seq<byte> | |v| == 16 witness seq(16, _ => 0)

  function Splat(c: byte): Vec { seq(16, _ => c) }

  function Load(b: seq<byte>, at: nat): Vec
    requires at + 16 <= |b|
  {
    b[at..at + 16]
  }

  /** `vextq_u8(a, b, k)`: the lanes of `a` from `k` on, then the first lanes of `b`. */
  function Ext(a: Vec, b: Vec, k: nat): Vec
    requires k <= 16
  {
    a[k..] + b[..k]
  }

  /** `vmaxvq_u8`, over any number of lanes. */
  function Max(v: seq<byte>): byte
  {
    if |v| == 0 then 0
    else var rest := Max(v[1..]); if v[0] > rest then v[0] else rest
  }

  lemma {:induction false} MaxBounds(v: seq<byte>, i: nat)
    requires i < |v|
    ensures v[i] <= Max(v)
  {
    if i > 0 {
      MaxBounds(v[1..], i - 1);
    }
  }

  lemma {:induction false} MaxAttained(v: seq<byte>) returns (i: nat)
    requires Max(v) != 0
    ensures i < |v| && v[i] == Max(v)
  {
    if v[0] > Max(v[1..]) {
      i := 0;
    } else {
      i := MaxAttained(v[1..]);
      i := i + 1;
    }
  }

  lemma MaxReaches(v: seq<byte>, c: byte)
    requires c > 0
    ensures Max(v) >= c <==> exists i :: 0 <= i < |v| && v[i] >= c
  {
    if Max(v) >= c {
      var i := MaxAttained(v);
    }
    if i :| 0 <= i < |v| && v[i] >= c {
      MaxBounds(v, i);
    }
  }

  /** The validator's fault vector, from the previous block and this one. */
  function Faults(previous: Vec, block: Vec): Vec
  {
    var previous1 := Ext(previous, block, 15);
    var previous2 := Ext(previous, block, 14);
    var previous3 := Ext(previous, block, 13);
    seq(16, i requires 0 <= i < 16 => Fault(previous3[i], previous2[i], previous1[i], block[i]))
  }

  /** The block before `at`: the last sixteen bytes, or zeros at the start. */
  ghost predicate Precedes(previous: Vec, b: seq<byte>, at: nat)
    requires at <= |b|
  {
    forall i :: 0 <= i < 16 ==> previous[i] == At(b, at - 16 + i)
  }

  /** Sixteen more lanes are clean exactly when the fault vector is zero. */
  lemma BlockClean(previous: Vec, b: seq<byte>, at: nat)
    requires at + 16 <= |b| && Precedes(previous, b, at) && Clean(b, at)
    ensures Max(Faults(previous, Load(b, at))) == 0 <==> Clean(b, at + 16)
  {
    var block := Load(b, at);
    var faults := Faults(previous, block);
    MaxReaches(faults, 1);
    forall i | 0 <= i < 16 ensures faults[i] == FaultAt(b, at + i) {
      Lane(previous, b, at, i, 1);
      Lane(previous, b, at, i, 2);
      Lane(previous, b, at, i, 3);
    }
    if forall i :: 0 <= i < 16 ==> faults[i] == 0 {
      forall i | 0 <= i < at + 16 ensures FaultAt(b, i) == 0 {
        assert i >= at ==> faults[i - at] == 0;
      }
    }
  }

  /** Lane `i` of `vextq_u8(previous, block, 16 - j)` is the byte `j` places back. */
  lemma Lane(previous: Vec, b: seq<byte>, at: nat, i: nat, j: nat)
    requires at + 16 <= |b| && Precedes(previous, b, at) && i < 16 && 1 <= j <= 3
    ensures Ext(previous, Load(b, at), 16 - j)[i] == At(b, at + i - j)
  {
    if i >= j {
      assert Ext(previous, Load(b, at), 16 - j)[i] == Load(b, at)[i - j];
    } else {
      assert Ext(previous, Load(b, at), 16 - j)[i] == previous[16 - j + i];
    }
  }

  lemma LoadPrecedes(b: seq<byte>, at: nat)
    requires at + 16 <= |b|
    ensures Precedes(Load(b, at), b, at + 16)
  {
    forall i | 0 <= i < 16 ensures Load(b, at)[i] == At(b, at + i) { }
  }

  /** A block of ASCII after a boundary ends at a boundary. */
  lemma {:induction false} AsciiRun(b: seq<byte>, at: nat, n: nat)
    requires at <= n <= |b| && Boundary(b, at)
    requires forall i :: at <= i < n ==> b[i] < 0x80
    ensures Boundary(b, n)
    decreases n
  {
    if at < n {
      AsciiRun(b, at, n - 1);
    }
  }

  lemma AsciiBlock(b: seq<byte>, at: nat)
    requires at + 16 <= |b| && Boundary(b, at) && Max(Load(b, at)) < 0x80
    ensures Boundary(b, at + 16) && Clean(b, at + 16)
  {
    MaxReaches(Load(b, at), 0x80);
    forall i | at <= i < at + 16 ensures b[i] < 0x80 {
      assert b[i] == Load(b, at)[i - at];
    }
    AsciiRun(b, at, at + 16);
    CleanIffAccepted(b, at + 16);
  }
}
