/** Parsing a glob pattern into components, and why `**` may be collapsed. */
module GlobParse {
  import opened Wrappers
  import opened Words
  import opened GlobMatch
  import opened GlobWalk

  datatype Pattern = Pattern(root: Path, components: seq<Name>)

  predicate Letter(c: byte) { 65 <= c <= 90 || 97 <= c <= 122 }

  const COLON: byte := 58

  /** A drive with its separator on Windows, or a leading separator. */
  function RootOf(text: Path, windows: bool): (root: Path)
    ensures root <= text && ValidRoot(root) && |root| in {0, 1, 3}
    ensures |root| == 3 <==> windows && |text| >= 3 && Letter(text[0]) && text[1..3] == [COLON, SLASH]
    ensures |root| == 0 <==> |root| != 3 && (text == [] || text[0] != SLASH)
  {
    if windows && |text| >= 3 && Letter(text[0]) && text[1] == COLON && text[2] == SLASH then text[..3]
    else if |text| > 0 && text[0] == SLASH then [SLASH]
    else []
  }

  /** The pieces between separators, empty ones included. */
  function Split(text: Path): (parts: seq<Name>)
    ensures |parts| > 0
    ensures forall i, k :: 0 <= i < |parts| && 0 <= k < |parts[i]| ==> parts[i][k] != SLASH
    ensures Joined(parts) == text
  {
    if |text| == 0 then [[]]
    else if text[0] == SLASH then [[]] + Split(text[1..])
    else var rest := Split(text[1..]); [[text[0]] + rest[0]] + rest[1..]
  }

  /** Cutting at the separators and joining again are inverse, so nothing else could be the
      pieces of a text. */
  lemma {:induction false} SplitUnique(parts: seq<Name>)
    requires |parts| > 0
    requires forall i, k :: 0 <= i < |parts| && 0 <= k < |parts[i]| ==> parts[i][k] != SLASH
    ensures Split(Joined(parts)) == parts
    decreases |parts|, |parts[0]|
  {
    var text := Joined(parts);
    if |parts[0]| > 0 {
      var shorter := [parts[0][1..]] + parts[1..];
      assert shorter[1..] == parts[1..];
      assert text[1..] == Joined(shorter);
      SplitUnique(shorter);
      assert [text[0]] + shorter[0] == parts[0];
    } else if |parts| > 1 {
      assert text[1..] == Joined(parts[1..]);
      SplitUnique(parts[1..]);
    }
  }

  function NonEmpty(parts: seq<Name>): seq<Name>
  {
    if |parts| == 0 then []
    else NonEmpty(parts[..|parts| - 1]) + if |parts[|parts| - 1]| == 0 then [] else [parts[|parts| - 1]]
  }

  /** Exactly the pieces that are not empty are kept, in order: `at` is where they stood. */
  lemma {:induction false} NonEmptyKeeps(parts: seq<Name>) returns (at: seq<nat>)
    ensures |at| == |NonEmpty(parts)| && forall i :: 0 <= i < |at| ==> at[i] < |parts| && NonEmpty(parts)[i] == parts[at[i]]
    ensures forall i, j :: 0 <= i < j < |at| ==> at[i] < at[j]
    ensures forall k :: 0 <= k < |parts| ==> (k in at <==> |parts[k]| > 0)
  {
    at := [];
    if |parts| > 0 {
      var n := |parts| - 1;
      at := NonEmptyKeeps(parts[..n]);
      if |parts[n]| > 0 {
        at := at + [n];
      }
    }
  }

  /** Drops a `**` that follows a `**`. */
  function Collapse(cs: seq<Name>): seq<Name>
  {
    if |cs| < 2 then cs
    else if Recursive(cs[0]) && Recursive(cs[1]) then Collapse(cs[1..])
    else [cs[0]] + Collapse(cs[1..])
  }

  /** No `**` follows a `**`. */
  predicate NoPairs(cs: seq<Name>) { forall i :: 0 < i < |cs| ==> !(Recursive(cs[i - 1]) && Recursive(cs[i])) }

  /** Collapsing leaves no such pair, and changes only a list that has one. */
  lemma {:induction false} CollapseLeavesNoPairs(cs: seq<Name>)
    ensures NoPairs(Collapse(cs)) && |Collapse(cs)| <= |cs|
    ensures |cs| > 0 ==> |Collapse(cs)| > 0 && Collapse(cs)[0] == cs[0]
    ensures Collapse(cs) == cs <==> NoPairs(cs)
  {
    if |cs| >= 2 {
      var rest := cs[1..];
      CollapseLeavesNoPairs(rest);
      assert NoPairs(cs) <==> NoPairs(rest) && !(Recursive(cs[0]) && Recursive(cs[1])) by {
        if NoPairs(cs) {
          forall i | 0 < i < |rest| ensures !(Recursive(rest[i - 1]) && Recursive(rest[i])) {
            assert rest[i] == cs[i + 1] && rest[i - 1] == cs[i];
          }
        }
      }
      if !(Recursive(cs[0]) && Recursive(cs[1])) {
        var short := Collapse(rest);
        assert Collapse(cs)[1..] == short;
        assert cs == [cs[0]] + rest;
      }
    }
  }

  /** Collapsing changes neither what a pattern denotes nor when its walk is too deep. */
  lemma {:induction false} CollapseDenotes(t: Tree, cs: seq<Name>, p: Path, ns: seq<Name>)
    ensures Denotes(t, Collapse(cs), p, ns) <==> Denotes(t, cs, p, ns)
    decreases |cs| + |ns|
  {
    if |cs| >= 2 {
      var rest := cs[1..];
      if Recursive(cs[0]) && Recursive(cs[1]) {
        assert cs == [cs[0], cs[1]] + cs[2..] && rest == [cs[1]] + cs[2..];
        DoubleStarDenotes(t, cs[2..], p, ns);
        CollapseDenotes(t, rest, p, ns);
      } else {
        assert Collapse(cs)[1..] == Collapse(rest);
        CollapseDenotes(t, rest, p, ns);
        if |ns| > 0 {
          CollapseDenotes(t, rest, Push(p, ns[0]), ns[1..]);
          CollapseDenotes(t, cs, Push(p, ns[0]), ns[1..]);
        }
      }
    }
  }

  lemma {:induction false} CollapseFails(t: Tree, cs: seq<Name>, p: Path, depth: nat)
    ensures Fails(t, Collapse(cs), p, depth) <==> Fails(t, cs, p, depth)
    decreases |cs|, depth
  {
    if |cs| >= 2 {
      var rest := cs[1..];
      if Recursive(cs[0]) && Recursive(cs[1]) {
        assert cs == [cs[0], cs[1]] + cs[2..] && rest == [cs[1]] + cs[2..];
        DoubleStarFails(t, cs[2..], p, depth);
        CollapseFails(t, rest, p, depth);
      } else {
        var short, tail := Collapse(cs), Collapse(rest);
        assert short[1..] == tail;
        forall q ensures Fails(t, tail, q, depth) <==> Fails(t, rest, q, depth) {
          CollapseFails(t, rest, q, depth);
        }
        if depth > 0 {
          var less := depth - 1;
          forall q ensures Fails(t, short, q, less) <==> Fails(t, cs, q, less) {
            CollapseFails(t, cs, q, less);
          }
        }
        SameHeadFails(t, short, cs, p, depth);
      }
    }
  }

  /** Patterns with the same first component fail alike if what follows it does. */
  lemma {:induction false} SameHeadFails(t: Tree, cs: seq<Name>, ds: seq<Name>, p: Path, depth: nat)
    requires |cs| > 0 && |ds| > 0 && cs[0] == ds[0]
    requires var c, d := cs[1..], ds[1..]; forall q :: Fails(t, c, q, depth) <==> Fails(t, d, q, depth)
    requires depth > 0 ==> var less := depth - 1; forall q :: Fails(t, cs, q, less) <==> Fails(t, ds, q, less)
    ensures Fails(t, cs, p, depth) <==> Fails(t, ds, p, depth)
  {
  }

  lemma {:induction false} CollapseSnoc(cs: seq<Name>, x: Name)
    ensures |cs| > 0 ==> |Collapse(cs)| > 0 && Collapse(cs)[|Collapse(cs)| - 1] == cs[|cs| - 1]
    ensures Collapse(cs + [x]) ==
              if |cs| > 0 && Recursive(cs[|cs| - 1]) && Recursive(x) then Collapse(cs) else Collapse(cs) + [x]
  {
    if |cs| >= 2 {
      CollapseSnoc(cs[1..], x);
      assert (cs + [x])[1..] == cs[1..] + [x];
    } else if |cs| == 1 {
      assert (cs + [x])[1..] == [x];
    }
  }

  /** The fault of the first component that has one. */
  function FirstFault(cs: seq<Name>): Option<Refusal>
  {
    if |cs| == 0 then None
    else
      var fault := Fault(Tokens(cs[0], 0), |cs[0]| == 2);
      if fault.Some? then fault else FirstFault(cs[1..])
  }

  /** It is the fault of a component with no faulty one before it. */
  lemma {:induction false} FirstFaultIs(cs: seq<Name>) returns (at: nat)
    ensures at <= |cs| && (FirstFault(cs).None? <==> at == |cs|)
    ensures forall i :: 0 <= i < at ==> Fault(Tokens(cs[i], 0), |cs[i]| == 2).None?
    ensures at < |cs| ==> FirstFault(cs) == Fault(Tokens(cs[at], 0), |cs[at]| == 2)
  {
    if |cs| == 0 || Fault(Tokens(cs[0], 0), |cs[0]| == 2).Some? {
      at := 0;
    } else {
      var k := FirstFaultIs(cs[1..]);
      at := k + 1;
    }
  }

  lemma {:induction false} FirstFaultAppends(a: seq<Name>, b: seq<Name>)
    ensures FirstFault(a + b) == if FirstFault(a).Some? then FirstFault(a) else FirstFault(b)
  {
    if |a| == 0 {
      assert a + b == b;
    } else {
      assert (a + b)[1..] == a[1..] + b;
      FirstFaultAppends(a[1..], b);
    }
  }

  lemma FirstFaultOne(c: Name)
    ensures FirstFault([c]) == Fault(Tokens(c, 0), |c| == 2)
  {
    var rest := [c][1..];
    assert |rest| == 0;
  }

  /** One more component: its own fault, or the components with it. */
  method AddComponent(component: Name, components: seq<Name>, ghost kept: seq<Name>) returns (r: Result<seq<Name>, Refusal>)
    requires components == Collapse(kept) && FirstFault(kept).None?
    ensures r.Err? ==> FirstFault(kept + [component]) == Some(r.error)
    ensures r.Ok? ==> FirstFault(kept + [component]).None? && r.value == Collapse(kept + [component])
  {
    var fault := CheckComponent(component);
    FirstFaultAppends(kept, [component]);
    FirstFaultOne(component);
    if fault.Some? {
      return Err(fault.value);
    }
    CollapseSnoc(kept, component);
    if Recursive(component) && |components| > 0 && components[|components| - 1] == [STAR, STAR] {
      return Ok(components);
    }
    return Ok(components + [component]);
  }

  lemma NonEmptyNext(parts: seq<Name>, k: nat)
    requires k < |parts|
    ensures NonEmpty(parts[..k + 1]) == NonEmpty(parts[..k]) + if |parts[k]| == 0 then [] else [parts[k]]
  {
    assert parts[..k + 1][..k] == parts[..k];
  }

  lemma FirstFaultStays(some: seq<Name>, all: seq<Name>)
    requires some <= all && FirstFault(some).Some?
    ensures FirstFault(all) == FirstFault(some)
  {
    assert all == some + all[|some|..];
    FirstFaultAppends(some, all[|some|..]);
  }

  /** A fault among the first pieces is the fault of them all. */
  lemma FaultStays(parts: seq<Name>, k: nat)
    requires k <= |parts| && FirstFault(NonEmpty(parts[..k])).Some?
    ensures FirstFault(NonEmpty(parts)) == FirstFault(NonEmpty(parts[..k]))
  {
    KeptStays(parts, k, |parts|);
    assert parts[..|parts|] == parts;
    FirstFaultStays(NonEmpty(parts[..k]), NonEmpty(parts));
  }

  /** The components of the pieces, or the first fault among them. */
  method Components(parts: seq<Name>) returns (r: Result<seq<Name>, Refusal>)
    ensures FirstFault(NonEmpty(parts)).Some? ==> r == Err(FirstFault(NonEmpty(parts)).value)
    ensures FirstFault(NonEmpty(parts)).None? ==> r == Ok(Collapse(NonEmpty(parts)))
  {
    var components: seq<Name> := [];
    for k := 0 to |parts|
      invariant components == Collapse(NonEmpty(parts[..k])) && FirstFault(NonEmpty(parts[..k])).None?
    {
      NonEmptyNext(parts, k);
      if |parts[k]| > 0 {
        r := AddComponent(parts[k], components, NonEmpty(parts[..k]));
        if r.Err? {
          FaultStays(parts, k + 1);
          return;
        }
        components := r.value;
      } else {
        assert NonEmpty(parts[..k]) + [] == NonEmpty(parts[..k]);
      }
    }
    assert parts[..|parts|] == parts;
    return Ok(components);
  }

  /** The components the text spells, before any are collapsed. */
  function Spelt(text: Path, windows: bool): seq<Name>
  {
    NonEmpty(Split(text[|RootOf(text, windows)|..]))
  }

  /** Why a pattern is refused, in the order the reasons are found. */
  function Refused(text: Path, windows: bool): Option<Refusal>
  {
    var cs := Spelt(text, windows);
    if FirstFault(cs).Some? then FirstFault(cs)
    else if |cs| == 0 && |RootOf(text, windows)| == 0 then Some(NamesNothing)
    else if |Collapse(cs)| > MAX_WALK_DEPTH then Some(TooLong)
    else None
  }

  /** A pattern is accepted when every component is well formed, it names some path, and
      it has no more components than a path may have; its components are then those of
      the text with repeated `**` collapsed. */
  method Parse(text: Path, windows: bool) returns (r: Result<Pattern, Refusal>)
    ensures r.Err? <==> Refused(text, windows).Some?
    ensures r.Err? ==> Refused(text, windows) == Some(r.error)
    ensures r.Ok? ==> r.value == Pattern(RootOf(text, windows), Collapse(Spelt(text, windows))) && ValidNames(r.value.components)
  {
    var root := RootOf(text, windows);
    var parts := Split(text[|root|..]);
    var components := Components(parts);
    CollapseEmpty(NonEmpty(parts));
    if components.Err? {
      return Err(components.error);
    }
    if |components.value| == 0 && |root| == 0 {
      return Err(NamesNothing);
    }
    if |components.value| > MAX_WALK_DEPTH {
      return Err(TooLong);
    }
    NonEmptyValid(parts);
    CollapseValid(NonEmpty(parts));
    return Ok(Pattern(root, components.value));
  }

  lemma {:induction false} NonEmptyValid(parts: seq<Name>)
    requires forall i, k :: 0 <= i < |parts| && 0 <= k < |parts[i]| ==> parts[i][k] != SLASH
    ensures ValidNames(NonEmpty(parts))
  {
    if |parts| > 0 {
      NonEmptyValid(parts[..|parts| - 1]);
    }
  }

  lemma {:induction false} CollapseValid(cs: seq<Name>)
    requires ValidNames(cs)
    ensures ValidNames(Collapse(cs))
  {
    if |cs| >= 2 {
      CollapseValid(cs[1..]);
    }
  }

  lemma CollapseEmpty(cs: seq<Name>)
    ensures |Collapse(cs)| == 0 <==> |cs| == 0
  {
    CollapseSnoc(cs, []);
  }

  lemma {:induction false} KeptStays(parts: seq<Name>, k: nat, n: nat)
    requires k <= n <= |parts|
    ensures NonEmpty(parts[..k]) <= NonEmpty(parts[..n])
    decreases n
  {
    if k < n {
      KeptStays(parts, k, n - 1);
      assert parts[..n][..n - 1] == parts[..n - 1];
    }
  }

  /** A relative path given by its own names is a pattern whose components are those names. */
  lemma SpeltJoined(ns: seq<Name>)
    requires |ns| > 0 && ValidNames(ns)
    ensures Spelt(Joined(ns), false) == ns
  {
    var text := Joined(ns);
    assert ValidName(ns[0]) && text[0] == ns[0][0];
    assert text[0..] == text;
    SplitUnique(ns);
    AllKept(ns);
  }

  lemma {:induction false} AllKept(parts: seq<Name>)
    requires ValidNames(parts)
    ensures NonEmpty(parts) == parts
  {
    if |parts| > 0 {
      AllKept(parts[..|parts| - 1]);
    }
  }

  // ----- the whole expansion -----

  /** Byte order, as the ordered set keeps paths. */
  predicate Less(a: Path, b: Path)
  {
    if |b| == 0 then false
    else if |a| == 0 then true
    else a[0] < b[0] || (a[0] == b[0] && Less(a[1..], b[1..]))
  }

  /** The first byte that differs is smaller, or nothing differs before the shorter ends. */
  ghost predicate Precedes(a: Path, b: Path, n: nat)
  {
    n <= |a| && n < |b| && a[..n] == b[..n] && (n == |a| || a[n] < b[n])
  }

  lemma {:induction false} LessIff(a: Path, b: Path)
    ensures Less(a, b) <==> exists n: nat :: Precedes(a, b, n)
    decreases |a|
  {
    if |a| > 0 && |b| > 0 {
      var s, t := a[1..], b[1..];
      LessIff(s, t);
      if n: nat :| Precedes(s, t, n) {
        assert a[0] == b[0] ==> a[..n + 1] == [a[0]] + s[..n] && b[..n + 1] == [b[0]] + t[..n] && Precedes(a, b, n + 1);
      }
      if n: nat :| Precedes(a, b, n) {
        if n > 0 {
          assert a[..n][0] == b[..n][0];
          assert s[..n - 1] == a[..n][1..] && t[..n - 1] == b[..n][1..];
          assert Precedes(s, t, n - 1);
        }
      }
      if a[0] < b[0] {
        assert Precedes(a, b, 0);
      }
    } else if |b| > 0 {
      assert Precedes(a, b, 0);
    }
  }

  lemma {:induction false} LessTotal(a: Path, b: Path)
    ensures a == b || Less(a, b) || Less(b, a)
    ensures !(Less(a, b) && Less(b, a)) && !Less(a, a)
    decreases |a|
  {
    if |a| > 0 && |b| > 0 {
      LessTotal(a[1..], b[1..]);
      assert a == [a[0]] + a[1..] && b == [b[0]] + b[1..];
    }
    if |a| > 0 {
      LessTotal(a[1..], a[1..]);
    }
  }

  lemma {:induction false} LessTransitive(a: Path, b: Path, c: Path)
    requires Less(a, b) && Less(b, c)
    ensures Less(a, c)
    decreases |a|
  {
    if |a| > 0 && a[0] == b[0] == c[0] {
      LessTransitive(a[1..], b[1..], c[1..]);
    }
  }

  predicate Increasing(s: seq<Path>) { forall i, j :: 0 <= i < j < |s| ==> Less(s[i], s[j]) }

  /** The least path of a set. */
  method Least(paths: set<Path>) returns (least: Path)
    requires paths != {}
    ensures least in paths && forall p :: p in paths && p != least ==> Less(least, p)
  {
    least :| least in paths;
    var rest := paths - {least};
    while rest != {}
      invariant rest <= paths && least in paths && least !in rest
      invariant forall p :: p in paths - rest && p != least ==> Less(least, p)
      decreases |rest|
    {
      var p :| p in rest;
      LessTotal(least, p);
      if Less(p, least) {
        forall q | q in paths - rest && q != least ensures Less(p, q) {
          LessTransitive(p, least, q);
        }
        least := p;
      }
      rest := rest - {p};
    }
  }

  /** The paths of a set in order, each once. */
  method Ordered(paths: set<Path>) returns (r: seq<Path>)
    ensures Increasing(r) && forall p :: p in r <==> p in paths
  {
    r := [];
    var rest := paths;
    while rest != {}
      invariant rest <= paths && Increasing(r)
      invariant forall p :: p in r <==> p in paths && p !in rest
      invariant forall i, p :: 0 <= i < |r| && p in rest ==> Less(r[i], p)
      decreases |rest|
    {
      var least := Least(rest);
      r := r + [least];
      rest := rest - {least};
    }
  }

  datatype GlobError = BadPattern(refusal: Refusal) | WalkFailed

  /** The path is one the text's own components denote. */
  ghost predicate Names(tree: Tree, text: Path, windows: bool, path: Path)
  {
    exists ns :: Denotes(tree, Spelt(text, windows), RootOf(text, windows), ns) && path == Render(RootOf(text, windows), ns)
  }

  /** A pattern text expands to the paths it names, in order and each once; or is refused
      for the first reason found; or fails exactly when the plain walk of the components as
      spelt would. */
  method ExpandText(text: Path, windows: bool, tree: Tree) returns (r: Result<seq<Path>, GlobError>)
    requires ValidTree(tree)
    ensures Refused(text, windows).Some? ==> r == Err(BadPattern(Refused(text, windows).value))
    ensures Refused(text, windows).None? ==>
              (r == Err(WalkFailed) <==> Fails(tree, Spelt(text, windows), RootOf(text, windows), MAX_WALK_DEPTH))
    ensures r.Ok? ==> Increasing(r.value) && forall p :: p in r.value <==> Names(tree, text, windows, p)
    ensures r.Err? ==> r.error == WalkFailed || Refused(text, windows).Some?
  {
    var pattern := Parse(text, windows);
    if pattern.Err? {
      return Err(BadPattern(pattern.error));
    }
    var root := pattern.value.root;
    var job := Job(tree, root, pattern.value.components);
    var ok, matches, _ := Expand(job);
    CollapseFails(tree, Spelt(text, windows), root, MAX_WALK_DEPTH);
    if !ok {
      return Err(WalkFailed);
    }
    forall p ensures p in matches <==> Names(tree, text, windows, p) {
      NamesCollapsed(job, text, windows, p);
    }
    var paths := Ordered(matches);
    return Ok(paths);
  }

  lemma NamesCollapsed(j: Job, text: Path, windows: bool, p: Path)
    requires j.root == RootOf(text, windows) && j.components == Collapse(Spelt(text, windows))
    ensures Names(j.tree, text, windows, p) <==> exists ns :: Denoted(j, ns) && p == At(j, ns)
  {
    forall ns ensures Denoted(j, ns) <==> Denotes(j.tree, Spelt(text, windows), j.root, ns) {
      CollapseDenotes(j.tree, Spelt(text, windows), j.root, ns);
    }
    if Names(j.tree, text, windows, p) {
      var ns :| Denotes(j.tree, Spelt(text, windows), j.root, ns) && p == Render(j.root, ns);
      assert Denoted(j, ns) && p == At(j, ns);
    }
    if ns :| Denoted(j, ns) && p == At(j, ns) {
      assert Denotes(j.tree, Spelt(text, windows), j.root, ns) && p == Render(j.root, ns);
    }
  }
}
