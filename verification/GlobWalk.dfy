/**
 Expanding a glob pattern over a fixed tree of directories: what the pattern denotes,
 and the recursive walk that remembers which recursive wildcards it has expanded where.
 */
module GlobWalk {
  import opened Wrappers
  import opened Words
  import opened Sequences
  import opened GlobMatch

  const SLASH: byte := 47
  const MAX_WALK_DEPTH: nat := 512

  /** Bytes as the operating system sees them, and one component of them. */
  type Path = seq<byte>
  type Name = seq<byte>

  /** A directory entry; `directory` is false for a symbolic link to one. */
  datatype Entry = Entry(name: Name, directory: bool)

  /** What reading a directory yields: its entries, up to one that cannot be read. */
  datatype Directory = Directory(entries: seq<Entry>, breaks: bool)

  /** The tree as the walk sees it: listing follows links, and a path that cannot be read
      as a directory has no listing. */
  datatype Tree = Tree(list: Path -> Option<Directory>, exists_: Path -> bool)

  /** The entries of a directory; none where it cannot be read. */
  function Listing(t: Tree, p: Path): seq<Entry>
  {
    match t.list(p)
    case None => []
    case Some(directory) => directory.entries
  }

  /** Reading the directory stops at an entry that cannot be read. */
  predicate Breaks(t: Tree, p: Path) { t.list(p).Some? && t.list(p).value.breaks }

  predicate ValidName(n: Name) { |n| > 0 && forall i :: 0 <= i < |n| ==> n[i] != SLASH }

  ghost predicate ValidTree(t: Tree)
  {
    forall p, i :: 0 <= i < |Listing(t, p)| ==> ValidName(Listing(t, p)[i].name)
  }

  // ----- components -----

  predicate Recursive(text: Name) { text == [STAR, STAR] }

  predicate Wild(text: Name) { exists i :: 0 <= i < |text| && text[i] in {STAR, QUESTION, OPEN} }

  predicate Plain(text: Name) { !Recursive(text) && !Wild(text) }

  /** A component has a wildcard exactly when some token of it is no literal. */
  lemma WildIff(text: Name)
    ensures Wild(text) <==> exists i :: 0 <= i < |Tokens(text, 0)| && !Tokens(text, 0)[i].Literal?
  {
    WildFrom(text, 0);
  }

  lemma {:induction false} WildFrom(text: Name, at: nat)
    requires at <= |text|
    ensures (exists i :: at <= i < |text| && text[i] in {STAR, QUESTION, OPEN})
            <==> (exists i :: 0 <= i < |Tokens(text, at)| && !Tokens(text, at)[i].Literal?)
    decreases |text| - at
  {
    if at < |text| {
      var ts := Tokens(text, at);
      if text[at] in {STAR, QUESTION, OPEN} {
        assert !ts[0].Literal?;
      } else {
        var rest := Tokens(text, at + 1);
        assert ts == [Literal(text[at])] + rest;
        WildFrom(text, at + 1);
        if i :| 0 <= i < |rest| && !rest[i].Literal? {
          assert ts[i + 1] == rest[i];
        }
        if i :| 0 <= i < |ts| && !ts[i].Literal? {
          assert i > 0 && rest[i - 1] == ts[i];
        }
      }
    }
  }

  /** A component without a wildcard matches itself and nothing else. */
  lemma PlainIsItself(text: Name, n: Name)
    requires !Wild(text)
    ensures Matches(Tokens(text, 0), n) <==> n == text
  {
    PlainFrom(text, 0, n);
    assert text[0..] == text;
  }

  lemma LiteralFirst(c: byte, rest: seq<Token>, n: Name)
    ensures Matches([Literal(c)] + rest, n) <==> |n| > 0 && n[0] == c && Matches(rest, n[1..])
  {
    assert ([Literal(c)] + rest)[1..] == rest;
  }

  lemma HeadTail(c: byte, tail: Name, n: Name)
    ensures n == [c] + tail <==> |n| > 0 && n[0] == c && n[1..] == tail
  {
    if |n| > 0 {
      assert n == [n[0]] + n[1..];
    }
  }

  lemma {:induction false} PlainFrom(text: Name, at: nat, n: Name)
    requires at <= |text| && !Wild(text)
    ensures Matches(Tokens(text, at), n) <==> n == text[at..]
    decreases |text| - at
  {
    if at < |text| {
      assert text[at] !in {STAR, QUESTION, OPEN};
      var ts, rest := Tokens(text, at), Tokens(text, at + 1);
      assert ts == [Literal(text[at])] + rest;
      LiteralFirst(text[at], rest, n);
      HeadTail(text[at], text[at + 1..], n);
      assert text[at..] == [text[at]] + text[at + 1..];
      if |n| > 0 {
        PlainFrom(text, at + 1, n[1..]);
      }
    }
  }

  /** Appends one component, with a separator unless the path is empty or ends in one. */
  function Push(p: Path, n: Name): Path
  {
    if |p| > 0 && p[|p| - 1] != SLASH then p + [SLASH] + n else p + n
  }

  /** The bytes of a path given by its components below `root`. */
  function Render(root: Path, ns: seq<Name>): Path
  {
    if |ns| == 0 then root else Push(Render(root, ns[..|ns| - 1]), ns[|ns| - 1])
  }

  predicate ValidRoot(root: Path) { |root| == 0 || root[|root| - 1] == SLASH }

  ghost predicate ValidNames(ns: seq<Name>) { forall i :: 0 <= i < |ns| ==> ValidName(ns[i]) }

  lemma RenderSnoc(root: Path, ns: seq<Name>, n: Name)
    ensures Render(root, ns + [n]) == Push(Render(root, ns), n)
  {
    assert (ns + [n])[..|ns|] == ns;
  }

  lemma {:induction false} RenderGrows(root: Path, ns: seq<Name>)
    requires ValidRoot(root) && ValidNames(ns)
    ensures |Render(root, ns)| >= |root| + |ns|
    ensures |ns| > 0 ==> Render(root, ns)[|Render(root, ns)| - 1] != SLASH
  {
    if |ns| > 0 {
      var front, last := ns[..|ns| - 1], ns[|ns| - 1];
      RenderGrows(root, front);
      assert ValidName(last);
    }
  }

  /** A pushed component ends the path and follows a separator, if anything. */
  lemma PushEnds(p: Path, n: Name)
    requires ValidName(n)
    ensures var r := Push(p, n);
            && |r| >= |n| && r[|r| - |n|..] == n
            && (forall i :: |r| - |n| <= i < |r| ==> r[i] != SLASH)
            && (|r| > |n| ==> r[|r| - |n| - 1] == SLASH)
            && (r[..|r| - |n|] == p || (r[..|r| - |n|] == p + [SLASH] && |p| > 0 && p[|p| - 1] != SLASH))
  {
    var r := Push(p, n);
    assert forall i :: |r| - |n| <= i < |r| ==> r[i] == n[i - (|r| - |n|)];
  }

  /** The last component of a path can be read back from its bytes. */
  lemma PushInjective(p: Path, q: Path, m: Name, n: Name)
    requires ValidName(m) && ValidName(n) && Push(p, m) == Push(q, n)
    ensures m == n
    ensures p == q || p == q + [SLASH] || q == p + [SLASH]
  {
    PushEnds(p, m);
    PushEnds(q, n);
    assert |m| == |n|;
    assert (p + [SLASH])[..|p|] == p && (q + [SLASH])[..|q|] == q;
  }

  /** Distinct component lists have distinct bytes, so bytes may key what was visited. */
  lemma {:induction false} RenderInjective(root: Path, ms: seq<Name>, ns: seq<Name>)
    requires ValidRoot(root) && ValidNames(ms) && ValidNames(ns) && Render(root, ms) == Render(root, ns)
    ensures ms == ns
    decreases |ms|
  {
    RenderGrows(root, ms);
    RenderGrows(root, ns);
    if |ms| > 0 && |ns| > 0 {
      var mf, nf := ms[..|ms| - 1], ns[..|ns| - 1];
      PushInjective(Render(root, mf), Render(root, nf), ms[|ms| - 1], ns[|ns| - 1]);
      RenderGrows(root, mf);
      RenderGrows(root, nf);
      RenderInjective(root, mf, nf);
      assert ms == mf + [ms[|ms| - 1]] && ns == nf + [ns[|ns| - 1]];
    }
  }

  /** The pieces with one separator between each two. */
  function Joined(parts: seq<Name>): Path
  {
    if |parts| == 0 then []
    else if |parts| == 1 then parts[0]
    else parts[0] + [SLASH] + Joined(parts[1..])
  }

  lemma {:induction false} JoinedSnoc(parts: seq<Name>, n: Name)
    ensures Joined(parts + [n]) == if |parts| == 0 then n else Joined(parts) + [SLASH] + n
  {
    if |parts| > 0 {
      assert (parts + [n])[1..] == parts[1..] + [n];
      JoinedSnoc(parts[1..], n);
    } else {
      assert parts + [n] == [n];
    }
  }

  /** The bytes of a path are its root and its components, joined. */
  lemma {:induction false} RenderJoins(root: Path, ns: seq<Name>)
    requires ValidRoot(root) && ValidNames(ns)
    ensures Render(root, ns) == root + Joined(ns)
  {
    if |ns| > 0 {
      var front, last := ns[..|ns| - 1], ns[|ns| - 1];
      RenderJoins(root, front);
      RenderGrows(root, front);
      JoinedSnoc(front, last);
      assert front + [last] == ns;
      RenderSnoc(root, front, last);
      PushJoins(root, Joined(front), last);
    }
  }

  lemma PushJoins(root: Path, joined: Path, last: Name)
    requires ValidRoot(root) && (|joined| > 0 ==> joined[|joined| - 1] != SLASH)
    ensures Push(root + joined, last) == root + if |joined| == 0 then last else joined + [SLASH] + last
  {
    if |joined| == 0 {
      assert root + joined == root;
    } else {
      assert root + joined + [SLASH] + last == root + (joined + [SLASH] + last);
    }
  }

  // ----- what a pattern denotes -----

  ghost predicate Lists(t: Tree, p: Path, n: Name)
  {
    exists i :: 0 <= i < |Listing(t, p)| && Listing(t, p)[i].name == n
  }

  /** `n` is a real directory in `p`, not a link to one. */
  ghost predicate ListsDirectory(t: Tree, p: Path, n: Name)
  {
    exists i :: 0 <= i < |Listing(t, p)| && Listing(t, p)[i] == Entry(n, true)
  }

  /** The components `ns` below `p` exist and match the pattern components `cs`: a literal
      is itself, a wildcard is a listed name it matches, and `**` is any chain of real
      directories. */
  ghost predicate Denotes(t: Tree, cs: seq<Name>, p: Path, ns: seq<Name>)
    decreases |cs| + |ns|
  {
    if |cs| == 0 then |ns| == 0 && |p| > 0 && t.exists_(p)
    else if Recursive(cs[0]) then
      || Denotes(t, cs[1..], p, ns)
      || (|ns| > 0 && ListsDirectory(t, p, ns[0]) && Denotes(t, cs, Push(p, ns[0]), ns[1..]))
    else
      |ns| > 0 && Denotes(t, cs[1..], Push(p, ns[0]), ns[1..]) &&
      if Wild(cs[0]) then Lists(t, p, ns[0]) && Matches(Tokens(cs[0], 0), ns[0]) else ns[0] == cs[0]
  }

  /** The un-memoised walk from here would fail: it enters a `**` with no depth left, or
      meets an entry it cannot read. */
  ghost predicate Fails(t: Tree, cs: seq<Name>, p: Path, depth: nat)
    decreases |cs|, depth
  {
    if |cs| == 0 then false
    else if Recursive(cs[0]) then
      || depth == 0
      || Fails(t, cs[1..], p, depth)
      || Breaks(t, p)
      || (exists i :: 0 <= i < |Listing(t, p)| && Listing(t, p)[i].directory &&
                      Fails(t, cs, Push(p, Listing(t, p)[i].name), depth - 1))
    else if Wild(cs[0]) then
      || Breaks(t, p)
      || (exists i :: 0 <= i < |Listing(t, p)| && Matches(Tokens(cs[0], 0), Listing(t, p)[i].name) &&
                      Fails(t, cs[1..], Push(p, Listing(t, p)[i].name), depth))
    else Fails(t, cs[1..], Push(p, cs[0]), depth)
  }

  /** Each name is a real directory in the path of those before it. */
  ghost predicate Chain(t: Tree, p: Path, ns: seq<Name>)
    decreases |ns|
  {
    |ns| == 0 || (ListsDirectory(t, p, ns[0]) && Chain(t, Push(p, ns[0]), ns[1..]))
  }

  function Down(p: Path, ns: seq<Name>): Path
    decreases |ns|
  {
    if |ns| == 0 then p else Down(Push(p, ns[0]), ns[1..])
  }

  /** The first `k` names are a chain of real directories, and the rest of the pattern
      denotes the rest of the names below them. */
  ghost predicate SkipsTo(t: Tree, rest: seq<Name>, p: Path, ns: seq<Name>, k: nat)
  {
    k <= |ns| && Chain(t, p, ns[..k]) && Denotes(t, rest, Down(p, ns[..k]), ns[k..])
  }

  ghost predicate Skips(t: Tree, rest: seq<Name>, p: Path, ns: seq<Name>) { exists k: nat :: SkipsTo(t, rest, p, ns, k) }

  /** A `**` stands for any chain of real directories, and so for none that a link leads to. */
  lemma {:induction false} RecursiveDenotes(t: Tree, cs: seq<Name>, p: Path, ns: seq<Name>)
    requires |cs| > 0 && Recursive(cs[0])
    ensures Denotes(t, cs, p, ns) <==> Skips(t, cs[1..], p, ns)
    decreases |ns|
  {
    SkipsIff(t, cs[1..], p, ns);
    if |ns| > 0 {
      RecursiveDenotes(t, cs, Push(p, ns[0]), ns[1..]);
    }
  }

  lemma {:induction false} SkipsIff(t: Tree, rest: seq<Name>, p: Path, ns: seq<Name>)
    ensures Skips(t, rest, p, ns) <==>
              || Denotes(t, rest, p, ns)
              || (|ns| > 0 && ListsDirectory(t, p, ns[0]) && Skips(t, rest, Push(p, ns[0]), ns[1..]))
  {
    assert SkipsTo(t, rest, p, ns, 0) <==> Denotes(t, rest, p, ns) by {
      assert ns[..0] == [] && ns[0..] == ns;
    }
    if k: nat :| SkipsTo(t, rest, p, ns, k) {
      if k > 0 {
        SkipsOne(t, rest, p, ns, k - 1);
      }
    }
    if |ns| > 0 && ListsDirectory(t, p, ns[0]) {
      if k: nat :| SkipsTo(t, rest, Push(p, ns[0]), ns[1..], k) {
        SkipsOne(t, rest, p, ns, k);
      }
    }
  }

  lemma {:induction false} SkipsOne(t: Tree, rest: seq<Name>, p: Path, ns: seq<Name>, k: nat)
    requires k < |ns|
    ensures SkipsTo(t, rest, p, ns, k + 1) <==>
              ListsDirectory(t, p, ns[0]) && SkipsTo(t, rest, Push(p, ns[0]), ns[1..], k)
  {
    assert ns[..k + 1][1..] == ns[1..][..k] && ns[..k + 1][0] == ns[0];
    assert ns[1..][k..] == ns[k + 1..];
  }

  // ----- `**/**` -----

  lemma {:induction false} DoubleStarDenotes(t: Tree, rest: seq<Name>, p: Path, ns: seq<Name>)
    ensures var star: Name := [STAR, STAR];
            Denotes(t, [star, star] + rest, p, ns) <==> Denotes(t, [star] + rest, p, ns)
    decreases |ns|
  {
    var star: Name := [STAR, STAR];
    assert ([star, star] + rest)[1..] == [star] + rest;
    assert ([star] + rest)[1..] == rest;
    if |ns| > 0 {
      DoubleStarDenotes(t, rest, Push(p, ns[0]), ns[1..]);
    }
  }

  lemma {:induction false} DoubleStarFails(t: Tree, rest: seq<Name>, p: Path, depth: nat)
    ensures var star: Name := [STAR, STAR];
            Fails(t, [star, star] + rest, p, depth) <==> Fails(t, [star] + rest, p, depth)
    decreases depth
  {
    var star: Name := [STAR, STAR];
    assert ([star, star] + rest)[1..] == [star] + rest;
    assert ([star] + rest)[1..] == rest;
    if depth > 0 {
      var two, one, less := [star, star] + rest, [star] + rest, depth - 1;
      forall q ensures Fails(t, two, q, less) <==> Fails(t, one, q, less) {
        DoubleStarFails(t, rest, q, less);
      }
    }
  }

  // ----- the memoised walk -----

  /** What stays fixed during a walk. */
  datatype Job = Job(tree: Tree, root: Path, components: seq<Name>)

  ghost predicate ValidJob(j: Job)
  {
    ValidTree(j.tree) && ValidRoot(j.root) && ValidNames(j.components)
  }

  function At(j: Job, names: seq<Name>): Path { Render(j.root, names) }

  ghost predicate DenotesFrom(j: Job, c: nat, names: seq<Name>, ms: seq<Name>)
    requires c <= |j.components|
  {
    Denotes(j.tree, j.components[c..], At(j, names), ms)
  }

  ghost predicate Denoted(j: Job, ns: seq<Name>) { Denotes(j.tree, j.components, j.root, ns) }

  /** How many of the first `c` components each account for one name of the path. */
  function Levels(j: Job, c: nat): nat
    requires c <= |j.components|
  {
    if c == 0 then 0 else Levels(j, c - 1) + if Recursive(j.components[c - 1]) then 0 else 1
  }

  /** The depth left at a pattern position and path: both determine it. */
  function DepthLeft(j: Job, c: nat, names: seq<Name>): int
    requires c <= |j.components|
  {
    MAX_WALK_DEPTH + Levels(j, c) - |names|
  }

  /** Whatever the pattern from `c` denotes below `names`, the whole pattern denotes. */
  ghost predicate Reached(j: Job, c: nat, names: seq<Name>)
    requires c <= |j.components|
  {
    forall ms :: DenotesFrom(j, c, names, ms) ==> Denoted(j, names + ms)
  }

  ghost predicate FoundAll(j: Job, c: nat, names: seq<Name>, matches: set<Path>)
    requires c <= |j.components|
  {
    forall ms :: DenotesFrom(j, c, names, ms) ==> At(j, names + ms) in matches
  }

  ghost predicate FailsFrom(j: Job, c: nat, names: seq<Name>)
    requires c <= |j.components| && DepthLeft(j, c, names) >= 0
  {
    Fails(j.tree, j.components[c..], At(j, names), DepthLeft(j, c, names))
  }

  /** The walk from here is finished: everything is found, and nothing was too deep. */
  ghost predicate Complete(j: Job, c: nat, names: seq<Name>, matches: set<Path>)
  {
    && c <= |j.components| && DepthLeft(j, c, names) >= 0
    && !FailsFrom(j, c, names)
    && FoundAll(j, c, names, matches)
  }

  lemma CompleteGrows(j: Job, c: nat, names: seq<Name>, few: set<Path>, many: set<Path>)
    requires Complete(j, c, names, few) && few <= many
    ensures Complete(j, c, names, many)
  {
  }

  // one step down the pattern or the tree

  lemma DenotesSkip(j: Job, c: nat, names: seq<Name>, ms: seq<Name>)
    requires c < |j.components| && Recursive(j.components[c])
    ensures DenotesFrom(j, c, names, ms) <==>
              || DenotesFrom(j, c + 1, names, ms)
              || (|ms| > 0 && ListsDirectory(j.tree, At(j, names), ms[0]) && DenotesFrom(j, c, names + [ms[0]], ms[1..]))
  {
    assert j.components[c..][1..] == j.components[c + 1..];
    if |ms| > 0 {
      RenderSnoc(j.root, names, ms[0]);
    }
  }

  lemma DenotesOne(j: Job, c: nat, names: seq<Name>, ms: seq<Name>)
    requires c < |j.components| && !Recursive(j.components[c])
    ensures DenotesFrom(j, c, names, ms) <==>
              && |ms| > 0 && DenotesFrom(j, c + 1, names + [ms[0]], ms[1..])
              && (if Wild(j.components[c])
                  then Lists(j.tree, At(j, names), ms[0]) && Matches(Tokens(j.components[c], 0), ms[0])
                  else ms[0] == j.components[c])
  {
    assert j.components[c..][1..] == j.components[c + 1..];
    if |ms| > 0 {
      RenderSnoc(j.root, names, ms[0]);
    }
  }

  lemma Reassociate(names: seq<Name>, n: Name, ms: seq<Name>)
    ensures (names + [n]) + ms == names + ([n] + ms)
    ensures ([n] + ms)[0] == n && ([n] + ms)[1..] == ms
  {
  }

  lemma ReachSkip(j: Job, c: nat, names: seq<Name>)
    requires c < |j.components| && Recursive(j.components[c]) && Reached(j, c, names)
    ensures Reached(j, c + 1, names)
  {
    var d := c + 1;
    forall ms | DenotesFrom(j, d, names, ms) ensures Denoted(j, names + ms) {
      DenotesSkip(j, c, names, ms);
    }
  }

  lemma ReachDirectory(j: Job, c: nat, names: seq<Name>, n: Name)
    requires c < |j.components| && Recursive(j.components[c]) && Reached(j, c, names)
    requires ListsDirectory(j.tree, At(j, names), n)
    ensures Reached(j, c, names + [n])
  {
    var child := names + [n];
    forall ms | DenotesFrom(j, c, child, ms) ensures Denoted(j, child + ms) {
      Reassociate(names, n, ms);
      DenotesSkip(j, c, names, [n] + ms);
    }
  }

  lemma ReachName(j: Job, c: nat, names: seq<Name>, n: Name)
    requires c < |j.components| && !Recursive(j.components[c]) && Reached(j, c, names)
    requires if Wild(j.components[c])
             then Lists(j.tree, At(j, names), n) && Matches(Tokens(j.components[c], 0), n)
             else n == j.components[c]
    ensures Reached(j, c + 1, names + [n])
  {
    var child, d := names + [n], c + 1;
    forall ms | DenotesFrom(j, d, child, ms) ensures Denoted(j, child + ms) {
      Reassociate(names, n, ms);
      DenotesOne(j, c, names, [n] + ms);
    }
  }

  /** All of a `**` is found once the rest of the pattern is found here, and the `**` in
      every real directory here. */
  lemma FoundRecursive(j: Job, c: nat, names: seq<Name>, matches: set<Path>)
    requires c < |j.components| && Recursive(j.components[c]) && FoundAll(j, c + 1, names, matches)
    requires forall n :: ListsDirectory(j.tree, At(j, names), n) ==> FoundAll(j, c, names + [n], matches)
    ensures FoundAll(j, c, names, matches)
  {
    var d := c + 1;
    forall ms | DenotesFrom(j, c, names, ms) ensures At(j, names + ms) in matches {
      DenotesSkip(j, c, names, ms);
      if !DenotesFrom(j, d, names, ms) {
        assert FoundAll(j, c, names + [ms[0]], matches);
        Reassociate(names, ms[0], ms[1..]);
        assert [ms[0]] + ms[1..] == ms;
      }
    }
  }

  lemma FoundNames(j: Job, c: nat, names: seq<Name>, matches: set<Path>)
    requires c < |j.components| && !Recursive(j.components[c])
    requires forall n ::
               (if Wild(j.components[c])
                then Lists(j.tree, At(j, names), n) && Matches(Tokens(j.components[c], 0), n)
                else n == j.components[c]) ==> FoundAll(j, c + 1, names + [n], matches)
    ensures FoundAll(j, c, names, matches)
  {
    forall ms | DenotesFrom(j, c, names, ms) ensures At(j, names + ms) in matches {
      DenotesOne(j, c, names, ms);
      assert FoundAll(j, c + 1, names + [ms[0]], matches);
      Reassociate(names, ms[0], ms[1..]);
      assert [ms[0]] + ms[1..] == ms;
    }
  }

  function Entries(j: Job, names: seq<Name>): seq<Entry> { Listing(j.tree, At(j, names)) }

  lemma FailsSkip(j: Job, c: nat, names: seq<Name>)
    requires c < |j.components| && Recursive(j.components[c]) && DepthLeft(j, c, names) >= 0
    ensures DepthLeft(j, c + 1, names) == DepthLeft(j, c, names)
    ensures DepthLeft(j, c, names) == 0 ==> FailsFrom(j, c, names)
    ensures DepthLeft(j, c, names) > 0 ==>
              (FailsFrom(j, c, names) <==>
                 || FailsFrom(j, c + 1, names)
                 || Breaks(j.tree, At(j, names))
                 || exists i :: 0 <= i < |Entries(j, names)| && Entries(j, names)[i].directory &&
                                FailsFrom(j, c, names + [Entries(j, names)[i].name]))
  {
    var t, cs, p, es := j.tree, j.components[c..], At(j, names), Entries(j, names);
    assert cs[1..] == j.components[c + 1..];
    if DepthLeft(j, c, names) > 0 {
      var less := DepthLeft(j, c, names) - 1;
      forall i | 0 <= i < |es| ensures FailsFrom(j, c, names + [es[i].name]) <==> Fails(t, cs, Push(p, es[i].name), less) {
        RenderSnoc(j.root, names, es[i].name);
      }
    }
  }

  lemma FailsWild(j: Job, c: nat, names: seq<Name>)
    requires c < |j.components| && !Recursive(j.components[c]) && Wild(j.components[c]) && DepthLeft(j, c, names) >= 0
    ensures forall n: Name :: DepthLeft(j, c + 1, names + [n]) == DepthLeft(j, c, names)
    ensures FailsFrom(j, c, names) <==>
              || Breaks(j.tree, At(j, names))
              || exists i :: 0 <= i < |Entries(j, names)| &&
                             Matches(Tokens(j.components[c], 0), Entries(j, names)[i].name) &&
                             FailsFrom(j, c + 1, names + [Entries(j, names)[i].name])
  {
    var t, rest, p, es, d := j.tree, j.components[c + 1..], At(j, names), Entries(j, names), c + 1;
    assert j.components[c..][1..] == rest;
    var depth := DepthLeft(j, c, names);
    forall i | 0 <= i < |es| ensures FailsFrom(j, d, names + [es[i].name]) <==> Fails(t, rest, Push(p, es[i].name), depth) {
      RenderSnoc(j.root, names, es[i].name);
    }
  }

  lemma PlainStep(j: Job, c: nat, names: seq<Name>)
    requires c < |j.components| && Plain(j.components[c]) && DepthLeft(j, c, names) >= 0
    ensures DepthLeft(j, c + 1, names + [j.components[c]]) == DepthLeft(j, c, names)
    ensures FailsFrom(j, c, names) <==> FailsFrom(j, c + 1, names + [j.components[c]])
    ensures forall matches :: FoundAll(j, c + 1, names + [j.components[c]], matches) ==> FoundAll(j, c, names, matches)
  {
    assert j.components[c..][1..] == j.components[c + 1..];
    RenderSnoc(j.root, names, j.components[c]);
    forall matches | FoundAll(j, c + 1, names + [j.components[c]], matches) ensures FoundAll(j, c, names, matches) {
      FoundNames(j, c, names, matches);
    }
  }

  /** Walking from one place or from the other comes to the same. */
  ghost predicate SameFrom(j: Job, c: nat, names: seq<Name>, next: nat, below: seq<Name>)
    requires c <= |j.components| && next <= |j.components|
  {
    && DepthLeft(j, c, names) >= 0 && DepthLeft(j, next, below) == DepthLeft(j, c, names)
    && (FailsFrom(j, c, names) <==> FailsFrom(j, next, below))
    && (forall found :: FoundAll(j, next, below, found) ==> FoundAll(j, c, names, found))
  }

  lemma SameTransitive(j: Job, c: nat, names: seq<Name>, d: nat, child: seq<Name>, e: nat, below: seq<Name>)
    requires c <= |j.components| && d <= |j.components| && e <= |j.components|
    requires SameFrom(j, c, names, d, child) && SameFrom(j, d, child, e, below)
    ensures SameFrom(j, c, names, e, below)
  {
    forall found | FoundAll(j, e, below, found) ensures FoundAll(j, c, names, found) {
      assert FoundAll(j, d, child, found);
    }
  }

  /** Where the run of literal components that starts at `c` ends. */
  function PlainEnd(j: Job, c: nat): (e: nat)
    requires c <= |j.components|
    ensures c <= e <= |j.components|
    decreases |j.components| - c
  {
    if c < |j.components| && Plain(j.components[c]) then PlainEnd(j, c + 1) else c
  }

  lemma RenderSlice(j: Job, names: seq<Name>, c: nat, n: nat)
    requires c <= n < |j.components|
    ensures At(j, names + j.components[c..n + 1]) == Push(At(j, names + j.components[c..n]), j.components[n])
  {
    var before := names + j.components[c..n];
    assert names + j.components[c..n + 1] == before + [j.components[n]];
    RenderSnoc(j.root, before, j.components[n]);
  }

  lemma SliceCons(names: seq<Name>, cs: seq<Name>, c: nat, e: nat)
    requires c < e <= |cs|
    ensures names + [cs[c]] + cs[c + 1..e] == names + cs[c..e]
  {
    assert [cs[c]] + cs[c + 1..e] == cs[c..e];
  }

  /** A run of literal components may be taken in one step. */
  lemma {:induction false} PlainRunSame(j: Job, c: nat, names: seq<Name>)
    requires ValidJob(j) && c <= |j.components| && DepthLeft(j, c, names) >= 0 && Reached(j, c, names) && ValidNames(names)
    ensures var e := PlainEnd(j, c);
            var below := names + j.components[c..e];
            SameFrom(j, c, names, e, below) && Reached(j, e, below) && ValidNames(below)
    decreases |j.components| - c
  {
    var e := PlainEnd(j, c);
    if e == c {
      assert names + j.components[c..e] == names;
    } else {
      var child := names + [j.components[c]];
      PlainStep(j, c, names);
      ReachName(j, c, names, j.components[c]);
      var below := names + j.components[c..e];
      SliceCons(names, j.components, c, e);
      PlainRunSame(j, c + 1, child);
      SameTransitive(j, c, names, c + 1, child, e, below);
    }
  }

  lemma CompleteRecursive(j: Job, c: nat, names: seq<Name>, matches: set<Path>)
    requires c < |j.components| && Recursive(j.components[c]) && DepthLeft(j, c, names) > 0
    requires Complete(j, c + 1, names, matches) && !Breaks(j.tree, At(j, names))
    requires forall i :: 0 <= i < |Entries(j, names)| && Entries(j, names)[i].directory ==>
               Complete(j, c, names + [Entries(j, names)[i].name], matches)
    ensures Complete(j, c, names, matches)
  {
    FailsSkip(j, c, names);
    forall n | ListsDirectory(j.tree, At(j, names), n) ensures FoundAll(j, c, names + [n], matches) {
      var i :| 0 <= i < |Entries(j, names)| && Entries(j, names)[i] == Entry(n, true);
      assert Complete(j, c, names + [Entries(j, names)[i].name], matches);
    }
    FoundRecursive(j, c, names, matches);
  }

  lemma CompleteWild(j: Job, c: nat, names: seq<Name>, matches: set<Path>)
    requires c < |j.components| && !Recursive(j.components[c]) && Wild(j.components[c]) && DepthLeft(j, c, names) >= 0
    requires !Breaks(j.tree, At(j, names))
    requires forall i :: 0 <= i < |Entries(j, names)| && Matches(Tokens(j.components[c], 0), Entries(j, names)[i].name) ==>
               Complete(j, c + 1, names + [Entries(j, names)[i].name], matches)
    ensures Complete(j, c, names, matches)
  {
    FailsWild(j, c, names);
    forall n | Lists(j.tree, At(j, names), n) && Matches(Tokens(j.components[c], 0), n)
      ensures FoundAll(j, c + 1, names + [n], matches)
    {
      var i :| 0 <= i < |Entries(j, names)| && Entries(j, names)[i].name == n;
      assert Complete(j, c + 1, names + [Entries(j, names)[i].name], matches);
    }
    FoundNames(j, c, names, matches);
  }

  /** The first `k` entries here that the wildcard at `c` matches are complete. */
  ghost predicate WildDone(j: Job, c: nat, names: seq<Name>, k: nat, matches: set<Path>)
    requires c < |j.components| && k <= |Entries(j, names)|
  {
    forall i :: 0 <= i < k && Matches(Tokens(j.components[c], 0), Entries(j, names)[i].name) ==>
      Complete(j, c + 1, names + [Entries(j, names)[i].name], matches)
  }

  /** The `**` at `c` is complete in the first `k` entries here that are real directories. */
  ghost predicate DirectoriesDone(j: Job, c: nat, names: seq<Name>, k: nat, matches: set<Path>)
    requires c < |j.components| && k <= |Entries(j, names)|
  {
    forall i :: 0 <= i < k && Entries(j, names)[i].directory ==>
      Complete(j, c, names + [Entries(j, names)[i].name], matches)
  }

  lemma WildDoneGrows(j: Job, c: nat, names: seq<Name>, k: nat, few: set<Path>, many: set<Path>)
    requires c < |j.components| && k < |Entries(j, names)| && WildDone(j, c, names, k, few) && few <= many
    requires Matches(Tokens(j.components[c], 0), Entries(j, names)[k].name) ==>
               Complete(j, c + 1, names + [Entries(j, names)[k].name], many)
    ensures WildDone(j, c, names, k + 1, many)
  {
    forall i | 0 <= i < k && Matches(Tokens(j.components[c], 0), Entries(j, names)[i].name)
      ensures Complete(j, c + 1, names + [Entries(j, names)[i].name], many)
    {
      CompleteGrows(j, c + 1, names + [Entries(j, names)[i].name], few, many);
    }
  }

  lemma DirectoriesDoneGrows(j: Job, c: nat, names: seq<Name>, k: nat, few: set<Path>, many: set<Path>)
    requires c < |j.components| && k < |Entries(j, names)| && DirectoriesDone(j, c, names, k, few) && few <= many
    requires Entries(j, names)[k].directory ==> Complete(j, c, names + [Entries(j, names)[k].name], many)
    ensures DirectoriesDone(j, c, names, k + 1, many)
  {
    forall i | 0 <= i < k && Entries(j, names)[i].directory
      ensures Complete(j, c, names + [Entries(j, names)[i].name], many)
    {
      CompleteGrows(j, c, names + [Entries(j, names)[i].name], few, many);
    }
  }

  type Visit = (nat, seq<Name>)

  ghost predicate Sound(j: Job, matches: set<Path>)
  {
    forall m :: m in matches ==> exists ms :: Denoted(j, ms) && m == At(j, ms)
  }

  /** The visits whose bytes are the keys in `expanded`; those still `open` are on the
      stack, and every other one is complete. */
  ghost predicate Memo(j: Job, visited: set<Visit>, open: set<Visit>, expanded: set<(nat, Path)>, matches: set<Path>)
  {
    && open <= visited
    && (forall v :: v in visited ==> v.0 < |j.components| && ValidNames(v.1))
    && expanded == (set v | v in visited :: (v.0, At(j, v.1)))
    && (forall v :: v in visited - open ==> Complete(j, v.0, v.1, matches))
  }

  lemma MemoGrows(j: Job, visited: set<Visit>, open: set<Visit>, expanded: set<(nat, Path)>,
                  few: set<Path>, many: set<Path>)
    requires Memo(j, visited, open, expanded, few) && few <= many
    ensures Memo(j, visited, open, expanded, many)
  {
    forall v | v in visited - open ensures Complete(j, v.0, v.1, many) {
      CompleteGrows(j, v.0, v.1, few, many);
    }
  }

  lemma MemoOpens(j: Job, visited: set<Visit>, open: set<Visit>, expanded: set<(nat, Path)>, matches: set<Path>,
                  c: nat, names: seq<Name>)
    requires Memo(j, visited, open, expanded, matches) && c < |j.components| && ValidNames(names)
    ensures Memo(j, visited + {(c, names)}, open + {(c, names)}, expanded + {(c, At(j, names))}, matches)
  {
  }

  lemma MemoCloses(j: Job, visited: set<Visit>, open: set<Visit>, expanded: set<(nat, Path)>, matches: set<Path>,
                   c: nat, names: seq<Name>)
    requires Memo(j, visited, open + {(c, names)}, expanded, matches) && Complete(j, c, names, matches)
    ensures Memo(j, visited, open, expanded, matches)
  {
  }

  /** The bytes key the visit itself. */
  lemma MemoHit(j: Job, visited: set<Visit>, open: set<Visit>, expanded: set<(nat, Path)>, matches: set<Path>,
                c: nat, names: seq<Name>)
    requires ValidJob(j) && Memo(j, visited, open, expanded, matches) && ValidNames(names)
    ensures (c, At(j, names)) in expanded <==> (c, names) in visited
  {
    if (c, At(j, names)) in expanded {
      var v :| v in visited && (v.0, At(j, v.1)) == (c, At(j, names));
      RenderInjective(j.root, v.1, names);
      assert v == (c, names);
    }
  }

  /** The walk's buffers: the path so far, the matches, and the keys already expanded. */
  class Walk {
    const job: Job
    var prefix: Path
    var matches: set<Path>
    var expanded: set<(nat, Path)>
    ghost var visited: set<Visit>
    /** The keys in the order they were expanded. */
    ghost var log: seq<(nat, Path)>

    constructor (job: Job)
      ensures this.job == job && prefix == job.root && matches == {} && expanded == {}
      ensures visited == {} && log == []
    {
      this.job := job;
      prefix := job.root;
      matches, expanded, visited, log := {}, {}, {}, [];
    }

    /** Between calls: the memo holds, every match is denoted, and each key in
        `expanded` was expanded once. */
    ghost predicate Valid(open: set<Visit>)
      reads this
    {
      && ValidJob(job) && Memo(job, visited, open, expanded, matches)
      && Sound(job, matches) && Logged() && (forall k :: k in expanded ==> k in log)
    }

    /** No key was expanded twice, and none that is not remembered. */
    ghost predicate Logged()
      reads this
    {
      NoRepeats(log) && forall k :: k in log ==> k in expanded
    }

    /** As `Valid`, but this key is remembered and not yet expanded. */
    ghost predicate Marked(c: nat, open: set<Visit>)
      reads this
    {
      && ValidJob(job) && Memo(job, visited, open, expanded, matches)
      && Sound(job, matches) && Logged() && (c, prefix) in expanded && (c, prefix) !in log
      && (forall k :: k in expanded && k != (c, prefix) ==> k in log)
    }

    /** The call's place in the pattern, the path and the depth belong together. */
    ghost predicate Here(c: nat, depth: nat, names: seq<Name>)
      reads this
    {
      && c <= |job.components| && ValidNames(names) && prefix == At(job, names)
      && depth == DepthLeft(job, c, names) && Reached(job, c, names)
    }

    method Descend(c: nat, depth: nat, ghost names: seq<Name>, ghost open: set<Visit>) returns (ok: bool)
      requires Valid(open) && Here(c, depth, names)
      requires forall o :: o in open ==> o.0 < c
      modifies this
      ensures old(matches) <= matches && old(prefix) <= prefix && old(log) <= log && Logged()
      ensures ok ==> Valid(open) && prefix == old(prefix) && Complete(job, c, names, matches)
      ensures !ok ==> FailsFrom(job, c, names)
      decreases |job.components| - c, depth, 2
    {
      if c == |job.components| {
        assert job.components[c..] == [];
        if |prefix| > 0 && job.tree.exists_(prefix) {
          assert DenotesFrom(job, c, names, []);
          assert names + [] == names;
          MemoGrows(job, visited, open, expanded, matches, matches + {prefix});
          matches := matches + {prefix};
        }
        assert forall ms :: DenotesFrom(job, c, names, ms) ==> ms == [];
        assert names + [] == names;
        return true;
      }
      if Recursive(job.components[c]) {
        ok := Recurse(c, depth, names, open);
      } else if !Wild(job.components[c]) {
        ok := DescendPlain(c, depth, names, open);
      } else {
        ok := DescendWild(c, depth, names, open);
      }
    }

    method DescendPlain(c: nat, depth: nat, ghost names: seq<Name>, ghost open: set<Visit>) returns (ok: bool)
      requires Valid(open) && Here(c, depth, names)
      requires c < |job.components| && Plain(job.components[c])
      requires forall o :: o in open ==> o.0 < c
      modifies this
      ensures old(matches) <= matches && old(prefix) <= prefix && old(log) <= log && Logged()
      ensures ok ==> Valid(open) && prefix == old(prefix) && Complete(job, c, names, matches)
      ensures !ok ==> FailsFrom(job, c, names)
      decreases |job.components| - c, depth, 1
    {
      // A run of literal components costs one frame.
      var restore := |prefix|;
      PlainRunSame(job, c, names);
      var next, path := PlainRun(c, names);
      ghost var below := names + job.components[c..next];
      prefix := path;
      ok := Descend(next, depth, below, open);
      prefix := prefix[..restore];
    }

    /** The path after the run of literal components that starts at `c`. */
    method PlainRun(c: nat, ghost names: seq<Name>) returns (next: nat, path: Path)
      requires c < |job.components| && Plain(job.components[c]) && prefix == At(job, names)
      ensures c < next == PlainEnd(job, c) && path == At(job, names + job.components[c..next]) && prefix <= path
    {
      next, path := c, prefix;
      assert names + job.components[c..c] == names;
      while next < |job.components| && !Recursive(job.components[next]) && !Wild(job.components[next])
        invariant c <= next <= |job.components| && PlainEnd(job, next) == PlainEnd(job, c)
        invariant next == c ==> Plain(job.components[next])
        invariant prefix <= path && path == At(job, names + job.components[c..next])
      {
        RenderSlice(job, names, c, next);
        path := Push(path, job.components[next]);
        next := next + 1;
      }
    }

    method DescendWild(c: nat, depth: nat, ghost names: seq<Name>, ghost open: set<Visit>) returns (ok: bool)
      requires Valid(open) && Here(c, depth, names)
      requires c < |job.components| && !Recursive(job.components[c]) && Wild(job.components[c])
      requires forall o :: o in open ==> o.0 < c
      modifies this
      ensures old(matches) <= matches && old(prefix) <= prefix && old(log) <= log && Logged()
      ensures ok ==> Valid(open) && prefix == old(prefix) && Complete(job, c, names, matches)
      ensures !ok ==> FailsFrom(job, c, names)
      decreases |job.components| - c, depth, 1
    {
      var entries := Listing(job.tree, prefix);
      FailsWild(job, c, names);
      for k := 0 to |entries|
        invariant Valid(open) && Here(c, depth, names) && old(matches) <= matches && prefix == old(prefix) && old(log) <= log
        invariant WildDone(job, c, names, k, matches)
      {
        ghost var before := matches;
        ok := WildEntry(entries[k].name, c, depth, names, open);
        if !ok {
          return false;
        }
        WildDoneGrows(job, c, names, k, before, matches);
      }
      if Breaks(job.tree, prefix) {
        return false;
      }
      CompleteWild(job, c, names, matches);
      return true;
    }

    /** One entry against the wildcard at `c`. */
    method WildEntry(name: Name, c: nat, depth: nat, ghost names: seq<Name>, ghost open: set<Visit>) returns (ok: bool)
      requires Valid(open) && Here(c, depth, names) && Lists(job.tree, prefix, name)
      requires c < |job.components| && !Recursive(job.components[c]) && Wild(job.components[c])
      requires forall o :: o in open ==> o.0 < c
      modifies this
      ensures old(matches) <= matches && old(prefix) <= prefix && old(log) <= log && Logged()
      ensures ok ==> Valid(open) && prefix == old(prefix)
      ensures ok && Matches(Tokens(job.components[c], 0), name) ==> Complete(job, c + 1, names + [name], matches)
      ensures DepthLeft(job, c + 1, names + [name]) == depth
      ensures !ok ==> Matches(Tokens(job.components[c], 0), name) && FailsFrom(job, c + 1, names + [name])
      decreases |job.components| - c, depth, 0
    {
      var matched := MatchesName(job.components[c], name);
      if !matched {
        return true;
      }
      ReachName(job, c, names, name);
      ok := WithChild(name, c + 1, depth, names, open);
    }

    method WithChild(name: Name, c: nat, depth: nat, ghost names: seq<Name>, ghost open: set<Visit>) returns (ok: bool)
      requires Valid(open) && c <= |job.components| && ValidNames(names) && ValidName(name)
      requires prefix == At(job, names) && depth == DepthLeft(job, c, names + [name])
      requires Reached(job, c, names + [name])
      requires forall o :: o in open ==> o.0 < c
      modifies this
      ensures old(matches) <= matches && old(prefix) <= prefix && old(log) <= log && Logged()
      ensures ok ==> Valid(open) && prefix == old(prefix) && Complete(job, c, names + [name], matches)
      ensures !ok ==> FailsFrom(job, c, names + [name])
      decreases |job.components| - c, depth, 3
    {
      var restore := |prefix|;
      RenderSnoc(job.root, names, name);
      prefix := Push(prefix, name);
      ok := Descend(c, depth, names + [name], open);
      prefix := prefix[..restore];
    }

    method Recurse(c: nat, depth: nat, ghost names: seq<Name>, ghost open: set<Visit>) returns (ok: bool)
      requires Valid(open) && Here(c, depth, names)
      requires c < |job.components| && Recursive(job.components[c])
      requires forall o :: o in open ==> o.0 < c || (o.0 == c && |o.1| < |names|)
      modifies this
      ensures old(matches) <= matches && old(prefix) <= prefix && old(log) <= log && Logged()
      ensures ok ==> Valid(open) && prefix == old(prefix) && Complete(job, c, names, matches)
      ensures !ok ==> FailsFrom(job, c, names)
      decreases |job.components| - c, depth, 0
    {
      FailsSkip(job, c, names);
      if depth == 0 {
        return false;
      }
      MemoHit(job, visited, open, expanded, matches, c, names);
      if (c, prefix) in expanded {
        return true;
      }
      MarkExpanded(c, names, open);
      ok := ExpandHere(c, depth, names, open + {(c, names)});
      if ok {
        MemoCloses(job, visited, open, expanded, matches, c, names);
      }
    }

    /** The rest of the pattern here, then the `**` in every real directory here. */
    method ExpandHere(c: nat, depth: nat, ghost names: seq<Name>, ghost open: set<Visit>) returns (ok: bool)
      requires Marked(c, open) && Here(c, depth, names) && depth > 0
      requires c < |job.components| && Recursive(job.components[c])
      requires forall o :: o in open ==> o.0 < c || (o.0 == c && |o.1| <= |names|)
      modifies this
      ensures old(matches) <= matches && old(prefix) <= prefix && old(log) <= log && Logged()
      ensures ok ==> Valid(open) && prefix == old(prefix) && Complete(job, c, names, matches)
      ensures !ok ==> FailsFrom(job, c, names)
      ensures old(log) + [(c, old(prefix))] <= log
      decreases |job.components| - c, depth - 1, 5
    {
      log := log + [(c, prefix)];
      FailsSkip(job, c, names);
      ReachSkip(job, c, names);
      ok := Descend(c + 1, depth, names, open);
      if !ok {
        return false;
      }
      ghost var before := matches;
      ok := RecurseInto(c, depth, names, open);
      if !ok {
        return false;
      }
      CompleteGrows(job, c + 1, names, before, matches);
      CompleteRecursive(job, c, names, matches);
    }

    /** Records a key that was not expanded before. */
    method MarkExpanded(c: nat, ghost names: seq<Name>, ghost open: set<Visit>)
      requires Valid(open) && c < |job.components| && ValidNames(names) && prefix == At(job, names)
      requires (c, prefix) !in expanded
      modifies this`expanded, this`visited
      ensures Marked(c, open + {(c, names)})
      ensures expanded == old(expanded) + {(c, prefix)}
    {
      MemoOpens(job, visited, open, expanded, matches, c, names);
      expanded := expanded + {(c, prefix)};
      visited := visited + {(c, names)};
    }

    /** The loop over the real directories here. */
    method RecurseInto(c: nat, depth: nat, ghost names: seq<Name>, ghost open: set<Visit>) returns (ok: bool)
      requires Valid(open) && Here(c, depth, names) && depth > 0
      requires c < |job.components| && Recursive(job.components[c])
      requires forall o :: o in open ==> o.0 < c || (o.0 == c && |o.1| <= |names|)
      modifies this
      ensures old(matches) <= matches && old(prefix) <= prefix && old(log) <= log && Logged()
      ensures ok ==> Valid(open) && prefix == old(prefix)
      ensures ok ==> DirectoriesDone(job, c, names, |Entries(job, names)|, matches) && !Breaks(job.tree, prefix)
      ensures !ok ==> FailsFrom(job, c, names)
      decreases |job.components| - c, depth - 1, 4
    {
      FailsSkip(job, c, names);
      var entries := Listing(job.tree, prefix);
      for k := 0 to |entries|
        invariant Valid(open) && Here(c, depth, names) && old(matches) <= matches && prefix == old(prefix) && old(log) <= log
        invariant DirectoriesDone(job, c, names, k, matches)
      {
        ghost var before := matches;
        if entries[k].directory {
          assert entries[k] == Entry(entries[k].name, true);
          ok := DirectoryEntry(entries[k].name, c, depth, names, open);
          if !ok {
            return false;
          }
        }
        DirectoriesDoneGrows(job, c, names, k, before, matches);
      }
      return !Breaks(job.tree, prefix);
    }

    /** The `**` at `c` again, one directory down. */
    method DirectoryEntry(name: Name, c: nat, depth: nat, ghost names: seq<Name>, ghost open: set<Visit>)
      returns (ok: bool)
      requires Valid(open) && Here(c, depth, names) && depth > 0 && ListsDirectory(job.tree, prefix, name)
      requires c < |job.components| && Recursive(job.components[c])
      requires forall o :: o in open ==> o.0 < c || (o.0 == c && |o.1| <= |names|)
      modifies this
      ensures old(matches) <= matches && old(prefix) <= prefix && old(log) <= log && Logged()
      ensures ok ==> Valid(open) && prefix == old(prefix) && Complete(job, c, names + [name], matches)
      ensures DepthLeft(job, c, names + [name]) == depth - 1
      ensures !ok ==> FailsFrom(job, c, names + [name])
      decreases |job.components| - c, depth - 1, 3
    {
      ReachDirectory(job, c, names, name);
      var restore := |prefix|;
      RenderSnoc(job.root, names, name);
      prefix := Push(prefix, name);
      ok := Recurse(c, depth - 1, names + [name], open);
      if ok {
        prefix := prefix[..restore];
      }
    }
  }

  /** The memoised walk finds exactly the existing paths the pattern denotes, or fails
      exactly when the un-memoised walk would; `log` is what it expanded, in order, and no
      pair of pattern position and directory is in it twice. */
  method Expand(job: Job) returns (ok: bool, matches: set<Path>, ghost log: seq<(nat, Path)>)
    requires ValidJob(job)
    ensures ok <==> !Fails(job.tree, job.components, job.root, MAX_WALK_DEPTH)
    ensures ok ==> forall m :: m in matches <==> exists ns :: Denoted(job, ns) && m == At(job, ns)
    ensures NoRepeats(log)
  {
    var walk := new Walk(job);
    ReachedAtStart(job);
    ok := walk.Descend(0, MAX_WALK_DEPTH, [], {});
    matches, log := walk.matches, walk.log;
    assert job.components[0..] == job.components;
    if ok {
      FoundFromStart(job, matches);
    }
  }

  lemma ReachedAtStart(j: Job)
    ensures Reached(j, 0, [])
  {
    assert j.components[0..] == j.components;
    forall ms | DenotesFrom(j, 0, [], ms) ensures Denoted(j, [] + ms) {
      assert [] + ms == ms;
    }
  }

  lemma FoundFromStart(j: Job, matches: set<Path>)
    requires FoundAll(j, 0, [], matches)
    ensures forall ns :: Denoted(j, ns) ==> At(j, ns) in matches
  {
    assert j.components[0..] == j.components;
    forall ns | Denoted(j, ns) ensures At(j, ns) in matches {
      assert DenotesFrom(j, 0, [], ns);
      assert [] + ns == ns;
    }
  }
}
