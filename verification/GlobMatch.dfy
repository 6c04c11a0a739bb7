/**
 Glob components: what a component's tokens are, what they match, and the greedy
 matcher that remembers only the last star.
 */
module GlobMatch {
  import opened Wrappers
  import opened Words

  const STAR: byte := 42
  const QUESTION: byte := 63
  const OPEN: byte := 91
  const CLOSE: byte := 93
  const BANG: byte := 33
  const CARET: byte := 94
  const HYPHEN: byte := 45

  // ----- tokens -----

  datatype Item = One(value: byte) | Range(low: byte, high: byte)

  /** `Broken` is an opening bracket that nothing closes. */
  datatype Token = Star | Any | Class(negated: bool, items: seq<Item>) | Literal(value: byte) | Broken

  predicate InItem(item: Item, c: byte)
  {
    match item
    case One(value) => c == value
    case Range(low, high) => low <= c <= high
  }

  predicate InItems(items: seq<Item>, c: byte)
  {
    |items| > 0 && (InItem(items[0], c) || InItems(items[1..], c))
  }

  lemma {:induction false} InItemsIff(items: seq<Item>, c: byte)
    ensures InItems(items, c) <==> exists i :: 0 <= i < |items| && InItem(items[i], c)
  {
    if |items| > 0 {
      var rest := items[1..];
      InItemsIff(rest, c);
      if i :| 0 <= i < |rest| && InItem(rest[i], c) {
        assert items[i + 1] == rest[i];
      }
      if i :| 0 <= i < |items| && InItem(items[i], c) {
        assert i > 0 ==> rest[i - 1] == items[i];
      }
    }
  }

  lemma InItemsCons(item: Item, rest: seq<Item>, c: byte)
    ensures InItems([item] + rest, c) == (InItem(item, c) || InItems(rest, c))
  {
    assert ([item] + rest)[1..] == rest;
  }

  /** The tokens that consume exactly one byte. */
  predicate Accepts(t: Token, c: byte)
  {
    match t
    case Any => true
    case Class(negated, items) => negated != InItems(items, c)
    case Literal(value) => c == value
    case _ => false
  }

  predicate Outside(item: Item, c: byte)
  {
    match item
    case One(value) => c != value
    case Range(low, high) => c < low || high < c
  }

  /** A class accepts a byte unless it is outside all its items; a negated one exactly then. */
  lemma ClassIff(negated: bool, items: seq<Item>, c: byte)
    ensures Accepts(Class(negated, items), c) <==> (negated <==> forall i :: 0 <= i < |items| ==> Outside(items[i], c))
  {
    InItemsIff(items, c);
    assert forall i :: 0 <= i < |items| ==> (InItem(items[i], c) <==> !Outside(items[i], c));
  }

  /** The first closing bracket at or after `at`. */
  function FindClose(p: seq<byte>, at: nat): (r: Option<nat>)
    requires at <= |p|
    ensures r.Some? ==> at <= r.value < |p| && p[r.value] == CLOSE && forall i :: at <= i < r.value ==> p[i] != CLOSE
    ensures r.None? ==> forall i :: at <= i < |p| ==> p[i] != CLOSE
    decreases |p| - at
  {
    if at == |p| then None else if p[at] == CLOSE then Some(at) else FindClose(p, at + 1)
  }

  /** Where the class body starting at `at` closes: a bracket that comes first, after any
      negation sign, is a member. */
  function ClassEnd(p: seq<byte>, at: nat): (r: Option<nat>)
    requires at <= |p|
    ensures r.Some? ==> at < r.value < |p|
  {
    if at == |p| then None
    else
      var signed := if p[at] == BANG || p[at] == CARET then at + 1 else at;
      var body := if signed < |p| && p[signed] == CLOSE then signed + 1 else signed;
      FindClose(p, body)
  }

  function Items(p: seq<byte>, at: nat, end: nat): seq<Item>
    requires at <= end <= |p|
    decreases end - at
  {
    if at == end then []
    else if at + 1 != end && at + 2 != end && p[at + 1] == HYPHEN then
      [Range(p[at], p[at + 2])] + Items(p, at + 3, end)
    else [One(p[at])] + Items(p, at + 1, end)
  }

  function ClassOf(p: seq<byte>, at: nat, end: nat): Token
    requires at <= end <= |p|
  {
    if at != end && (p[at] == BANG || p[at] == CARET) then Class(true, Items(p, at + 1, end))
    else Class(false, Items(p, at, end))
  }

  function Tokens(p: seq<byte>, at: nat): seq<Token>
    requires at <= |p|
    decreases |p| - at
  {
    if at == |p| then []
    else if p[at] == STAR then [Star] + Tokens(p, at + 1)
    else if p[at] == QUESTION then [Any] + Tokens(p, at + 1)
    else if p[at] == OPEN then
      match ClassEnd(p, at + 1)
      case None => [Broken]
      case Some(end) => [ClassOf(p, at + 1, end)] + Tokens(p, end + 1)
    else [Literal(p[at])] + Tokens(p, at + 1)
  }

  // ----- matching, declaratively and recursively -----

  function Concat(pieces: seq<seq<byte>>): seq<byte>
  {
    if |pieces| == 0 then [] else pieces[0] + Concat(pieces[1..])
  }

  /** A star takes any piece of the name, any other token a single byte it accepts. */
  ghost predicate PieceFits(t: Token, piece: seq<byte>)
  {
    t.Star? || (|piece| == 1 && Accepts(t, piece[0]))
  }

  ghost predicate SplitsInto(ts: seq<Token>, name: seq<byte>, pieces: seq<seq<byte>>)
  {
    && |pieces| == |ts| && Concat(pieces) == name
    && forall i :: 0 <= i < |ts| ==> PieceFits(ts[i], pieces[i])
  }

  /** The name can be cut into one piece a token. */
  ghost predicate Splits(ts: seq<Token>, name: seq<byte>)
  {
    exists pieces :: SplitsInto(ts, name, pieces)
  }

  predicate Matches(ts: seq<Token>, name: seq<byte>)
    decreases |ts| + |name|
  {
    if |ts| == 0 then |name| == 0
    else if ts[0].Star? then Matches(ts[1..], name) || (|name| > 0 && Matches(ts, name[1..]))
    else |name| > 0 && Accepts(ts[0], name[0]) && Matches(ts[1..], name[1..])
  }

  lemma {:induction false} MatchesSplits(ts: seq<Token>, name: seq<byte>) returns (pieces: seq<seq<byte>>)
    requires Matches(ts, name)
    ensures SplitsInto(ts, name, pieces)
    decreases |ts| + |name|
  {
    if |ts| == 0 {
      pieces := [];
    } else if ts[0].Star? && !Matches(ts[1..], name) {
      var rest := MatchesSplits(ts, name[1..]);
      pieces := [[name[0]] + rest[0]] + rest[1..];
      assert pieces[1..] == rest[1..];
      assert name == [name[0]] + name[1..];
    } else {
      var first := if ts[0].Star? then [] else [name[0]];
      var rest := MatchesSplits(ts[1..], name[|first|..]);
      pieces := [first] + rest;
      assert pieces[1..] == rest;
      assert name == first + name[|first|..];
    }
  }

  lemma {:induction false} SplitsMatches(ts: seq<Token>, name: seq<byte>, pieces: seq<seq<byte>>)
    requires SplitsInto(ts, name, pieces)
    ensures Matches(ts, name)
    decreases |ts| + |name|
  {
    if |ts| > 0 {
      var first := pieces[0];
      assert PieceFits(ts[0], first);
      if ts[0].Star? && |first| > 0 {
        SplitsShorter(ts, name, pieces);
        SplitsMatches(ts, name[1..], [first[1..]] + pieces[1..]);
      } else {
        SplitsTail(ts, name, pieces);
        SplitsMatches(ts[1..], name[|first|..], pieces[1..]);
      }
    }
  }

  /** Without the first token and its piece. */
  lemma {:induction false} SplitsTail(ts: seq<Token>, name: seq<byte>, pieces: seq<seq<byte>>)
    requires |ts| > 0 && SplitsInto(ts, name, pieces)
    ensures |pieces[0]| <= |name| && name[..|pieces[0]|] == pieces[0]
    ensures SplitsInto(ts[1..], name[|pieces[0]|..], pieces[1..])
  {
    var first, rest, less := pieces[0], pieces[1..], ts[1..];
    assert name == first + Concat(rest);
    forall i | 0 <= i < |rest| ensures PieceFits(less[i], rest[i]) {
      assert PieceFits(ts[i + 1], pieces[i + 1]);
    }
  }

  /** A star's piece may lose its first byte. */
  lemma {:induction false} SplitsShorter(ts: seq<Token>, name: seq<byte>, pieces: seq<seq<byte>>)
    requires |ts| > 0 && ts[0].Star? && SplitsInto(ts, name, pieces) && |pieces[0]| > 0
    ensures |name| > 0 && SplitsInto(ts, name[1..], [pieces[0][1..]] + pieces[1..])
  {
    var first, rest := pieces[0], pieces[1..];
    var shorter := [first[1..]] + rest;
    assert shorter[1..] == rest;
    assert name == first + Concat(rest);
    assert Concat(shorter) == name[1..];
    forall i | 0 <= i < |ts| ensures PieceFits(ts[i], shorter[i]) {
      assert PieceFits(ts[i], pieces[i]);
    }
  }

  /** The recursive matcher decides the declarative one. */
  lemma {:induction false} MatchesIffSplits(ts: seq<Token>, name: seq<byte>)
    ensures Matches(ts, name) <==> Splits(ts, name)
  {
    if Matches(ts, name) {
      var pieces := MatchesSplits(ts, name);
    }
    if pieces :| SplitsInto(ts, name, pieces) {
      SplitsMatches(ts, name, pieces);
    }
  }

  // ----- how tokens are spelt -----

  function ItemText(item: Item): seq<byte>
  {
    match item
    case One(value) => [value]
    case Range(low, high) => [low, HYPHEN, high]
  }

  function ItemsText(items: seq<Item>): seq<byte>
  {
    if |items| == 0 then [] else ItemText(items[0]) + ItemsText(items[1..])
  }

  /** A hyphen with a byte on both sides makes a range of them, from left to right. */
  predicate RangesRead(items: seq<Item>)
  {
    |items| == 0 ||
    (RangesRead(items[1..]) &&
     (items[0].One? ==> var rest := ItemsText(items[1..]); !(|rest| >= 2 && rest[0] == HYPHEN)))
  }

  predicate Sign(c: byte) { c == BANG || c == CARET }

  /** A class body runs to the first closing bracket that is not its first member. */
  predicate Body(text: seq<byte>) { |text| > 0 && forall i :: 1 <= i < |text| ==> text[i] != CLOSE }

  /** The text of one token: a star, a question mark, a class between its brackets with its
      sign, any other byte, or an opening bracket with no class end after it. */
  predicate Spells(t: Token, text: seq<byte>)
  {
    match t
    case Star => text == [STAR]
    case Any => text == [QUESTION]
    case Literal(value) => text == [value] && value != STAR && value != QUESTION && value != OPEN
    case Class(negated, items) =>
      var from := if negated then 2 else 1;
      && |text| > from + 1 && text[0] == OPEN && text[|text| - 1] == CLOSE && Sign(text[1]) == negated
      && Body(text[from..|text| - 1]) && ItemsText(items) == text[from..|text| - 1] && RangesRead(items)
    case Broken =>
      && |text| > 0 && text[0] == OPEN
      && var from := if |text| > 1 && Sign(text[1]) then 2 else 1;
         forall i :: from < i < |text| ==> text[i] != CLOSE
  }

  lemma {:induction false} ItemsSpell(p: seq<byte>, at: nat, end: nat)
    requires at <= end <= |p|
    ensures ItemsText(Items(p, at, end)) == p[at..end] && RangesRead(Items(p, at, end))
    decreases end - at
  {
    if at < end {
      var ranged := at + 1 != end && at + 2 != end && p[at + 1] == HYPHEN;
      var next := if ranged then at + 3 else at + 1;
      var item, rest := if ranged then Range(p[at], p[at + 2]) else One(p[at]), Items(p, next, end);
      ItemsSpell(p, next, end);
      assert Items(p, at, end) == [item] + rest;
      ItemsTextCons(item, rest);
      ItemTextIs(p, at, next, item);
      Cut(p, at, next, end);
      assert !ranged && |ItemsText(rest)| >= 2 ==> ItemsText(rest)[0] == p[at + 1];
    }
  }

  lemma {:induction false} ItemTextIs(p: seq<byte>, at: nat, next: nat, item: Item)
    requires at < next <= |p|
    requires (next == at + 1 && item == One(p[at]))
          || (next == at + 3 && item == Range(p[at], p[at + 2]) && p[at + 1] == HYPHEN)
    ensures ItemText(item) == p[at..next]
  {
    var text, slice := ItemText(item), p[at..next];
    assert |text| == |slice|;
    forall i | 0 <= i < |text| ensures text[i] == slice[i] {
      assert slice[i] == p[at + i];
    }
  }

  lemma {:induction false} ItemsTextCons(item: Item, rest: seq<Item>)
    ensures ItemsText([item] + rest) == ItemText(item) + ItemsText(rest)
    ensures RangesRead([item] + rest) ==
              (RangesRead(rest) && (item.One? ==> !(|ItemsText(rest)| >= 2 && ItemsText(rest)[0] == HYPHEN)))
  {
    assert ([item] + rest)[1..] == rest;
  }

  lemma Cut(p: seq<byte>, a: nat, b: nat, c: nat)
    requires a <= b <= c <= |p|
    ensures p[a..c] == p[a..b] + p[b..c]
  {
  }

  lemma {:induction false} ClassSpells(p: seq<byte>, at: nat)
    requires at < |p| && p[at] == OPEN && ClassEnd(p, at + 1).Some?
    ensures var end := ClassEnd(p, at + 1).value; Spells(ClassOf(p, at + 1, end), p[at..end + 1])
  {
    var end := ClassEnd(p, at + 1).value;
    var negated := Sign(p[at + 1]);
    var from := if negated then at + 2 else at + 1;
    ItemsSpell(p, from, end);
    BodyIs(p, at, end);
    ClassSpelt(p, at, from, end, Items(p, from, end));
  }

  lemma {:induction false} ClassSpelt(p: seq<byte>, at: nat, from: nat, end: nat, items: seq<Item>)
    requires at + 1 < |p| && from == (if Sign(p[at + 1]) then at + 2 else at + 1) < end < |p|
    requires p[at] == OPEN && p[end] == CLOSE && Body(p[from..end])
    requires ItemsText(items) == p[from..end] && RangesRead(items)
    ensures Spells(Class(Sign(p[at + 1]), items), p[at..end + 1])
  {
    SliceOfSlice(p, at, end + 1, from, end);
    SliceAt(p, at, end + 1, 0);
    SliceAt(p, at, end + 1, 1);
    SliceAt(p, at, end + 1, end - at);
    ClassText(p[at..end + 1], from - at, Sign(p[at + 1]), items);
  }

  lemma {:induction false} ClassText(text: seq<byte>, from: nat, negated: bool, items: seq<Item>)
    requires from == (if negated then 2 else 1) < |text| - 1
    requires text[0] == OPEN && text[|text| - 1] == CLOSE && Sign(text[1]) == negated
    requires Body(text[from..|text| - 1]) && ItemsText(items) == text[from..|text| - 1] && RangesRead(items)
    ensures Spells(Class(negated, items), text)
  {
  }

  lemma SliceAt(p: seq<byte>, a: nat, b: nat, i: nat)
    requires a <= b <= |p| && i < b - a
    ensures p[a..b][i] == p[a + i]
  {
  }

  lemma SliceOfSlice(p: seq<byte>, a: nat, d: nat, b: nat, c: nat)
    requires a <= b <= c <= d <= |p|
    ensures p[a..d][b - a..c - a] == p[b..c]
  {
    var inner, direct := p[a..d][b - a..c - a], p[b..c];
    forall i | 0 <= i < |direct| ensures inner[i] == direct[i] {
      assert inner[i] == p[a..d][b - a + i];
    }
  }

  /** The brackets of a class stand where its end says. */
  lemma {:induction false} BodyIs(p: seq<byte>, at: nat, end: nat)
    requires at < |p| && ClassEnd(p, at + 1) == Some(end)
    ensures p[end] == CLOSE && end <= |p|
    ensures var from := if Sign(p[at + 1]) then at + 2 else at + 1; from < end && Body(p[from..end])
  {
    var from := if Sign(p[at + 1]) then at + 2 else at + 1;
    var first := if from < |p| && p[from] == CLOSE then from + 1 else from;
    assert FindClose(p, first) == Some(end);
    var body := p[from..end];
    forall i | 1 <= i < |body| ensures body[i] != CLOSE {
      assert body[i] == p[from + i];
    }
  }

  /** The first token of the pattern from `at`, and where the next one starts. */
  lemma {:induction false} TokenFirst(p: seq<byte>, at: nat) returns (head: Token, next: nat)
    requires at < |p|
    ensures at < next <= |p| && Tokens(p, at) == [head] + Tokens(p, next) && Spells(head, p[at..next])
  {
    head, next := Tokens(p, at)[0], After(p, at);
    if p[at] == OPEN && ClassEnd(p, at + 1).Some? {
      ClassSpells(p, at);
    } else if p[at] == OPEN {
      next := |p|;
      BrokenSpells(p, at);
    } else {
      assert p[at..next] == [p[at]];
    }
  }

  /** An opening bracket that no class end follows. */
  lemma {:induction false} BrokenSpells(p: seq<byte>, at: nat)
    requires at < |p| && p[at] == OPEN && ClassEnd(p, at + 1).None?
    ensures Spells(Broken, p[at..|p|])
  {
    var text := p[at..|p|];
    forall i | 0 <= i < |text| ensures text[i] == p[at + i] {
      SliceAt(p, at, |p|, i);
    }
  }

  /** The text is cut into one piece a token, each spelling it. */
  ghost predicate SpeltAs(ts: seq<Token>, text: seq<byte>, texts: seq<seq<byte>>)
  {
    && |texts| == |ts| && Concat(texts) == text
    && forall i :: 0 <= i < |ts| ==> Spells(ts[i], texts[i])
  }

  /** The tokens of a pattern are its own bytes cut into pieces, each spelling its token. */
  lemma {:induction false} TokensSpell(p: seq<byte>, at: nat) returns (texts: seq<seq<byte>>)
    requires at <= |p|
    ensures SpeltAs(Tokens(p, at), p[at..], texts)
    decreases |p| - at
  {
    if at == |p| {
      texts := [];
    } else {
      var head, next := TokenFirst(p, at);
      var rest := TokensSpell(p, next);
      texts := [p[at..next]] + rest;
      SpeltAsCons(head, Tokens(p, next), p[at..next], p[next..], rest);
      assert p[at..next] + p[next..] == p[at..];
    }
  }

  lemma {:induction false} SpeltAsCons(t: Token, ts: seq<Token>, text: seq<byte>, more: seq<byte>, texts: seq<seq<byte>>)
    requires Spells(t, text) && SpeltAs(ts, more, texts)
    ensures SpeltAs([t] + ts, text + more, [text] + texts)
  {
    assert ([text] + texts)[1..] == texts;
  }

  // ----- the loops -----

  method FindClassEnd(pattern: seq<byte>, start: nat) returns (r: Option<nat>)
    requires start <= |pattern|
    ensures r == ClassEnd(pattern, start)
  {
    var at := start;
    if at == |pattern| {
      return None;
    }
    if pattern[at] == BANG || pattern[at] == CARET {
      at := at + 1;
    }
    if at < |pattern| && pattern[at] == CLOSE {
      at := at + 1;
    }
    ghost var body := at;
    while at < |pattern| && pattern[at] != CLOSE
      invariant body <= at <= |pattern| && FindClose(pattern, at) == FindClose(pattern, body)
    {
      at := at + 1;
    }
    return if at < |pattern| then Some(at) else None;
  }

  /** Whether some item of the class body from `at` holds `c`, item by item. */
  predicate BodyHolds(p: seq<byte>, at: nat, end: nat, c: byte)
    requires at <= end <= |p|
    decreases end - at
  {
    if at == end then false
    else if at + 1 != end && at + 2 != end && p[at + 1] == HYPHEN then
      p[at] <= c <= p[at + 2] || BodyHolds(p, at + 3, end, c)
    else
      p[at] == c || BodyHolds(p, at + 1, end, c)
  }

  lemma {:induction false} BodyHoldsItems(p: seq<byte>, at: nat, end: nat, c: byte)
    requires at <= end <= |p|
    ensures BodyHolds(p, at, end, c) == InItems(Items(p, at, end), c)
    decreases end - at
  {
    if at < end {
      var ranged := at + 1 != end && at + 2 != end && p[at + 1] == HYPHEN;
      var item, next := if ranged then Range(p[at], p[at + 2]) else One(p[at]), if ranged then at + 3 else at + 1;
      BodyHoldsItems(p, next, end, c);
      var rest := Items(p, next, end);
      assert Items(p, at, end) == [item] + rest;
      InItemsCons(item, rest, c);
    }
  }

  method ClassAccepts(pattern: seq<byte>, start: nat, end: nat, candidate: byte) returns (r: bool)
    requires start <= end <= |pattern|
    ensures r == Accepts(ClassOf(pattern, start, end), candidate)
  {
    var at, negated, found := start, false, false;
    if at != end && (pattern[at] == BANG || pattern[at] == CARET) {
      negated := true;
      at := at + 1;
    }
    ghost var holds := BodyHolds(pattern, at, end, candidate);
    BodyHoldsItems(pattern, at, end, candidate);
    while at != end
      invariant at <= end
      invariant holds == (found || BodyHolds(pattern, at, end, candidate))
      decreases end - at
    {
      var low := pattern[at];
      at := at + 1;
      if at != end && at + 1 != end && pattern[at] == HYPHEN {
        var high := pattern[at + 1];
        at := at + 2;
        if low <= candidate <= high {
          found := true;
        }
      } else if low == candidate {
        found := true;
      }
    }
    return if negated then !found else found;
  }

  // ----- the matcher -----

  /** The pattern from `i` matches the name from `n`. */
  predicate Rest(p: seq<byte>, name: seq<byte>, i: nat, n: nat)
    requires i <= |p| && n <= |name|
  {
    Matches(Tokens(p, i), name[n..])
  }

  /** The pattern from `i` matches the name from `n` or from somewhere after it. */
  ghost predicate RestLater(p: seq<byte>, name: seq<byte>, i: nat, n: nat)
    requires i <= |p|
  {
    exists k :: n <= k <= |name| && Rest(p, name, i, k)
  }

  lemma {:induction false} StarIsLater(p: seq<byte>, name: seq<byte>, i: nat, n: nat)
    requires i < |p| && n <= |name| && p[i] == STAR
    ensures Rest(p, name, i, n) <==> RestLater(p, name, i + 1, n)
    decreases |name| - n
  {
    var ts := Tokens(p, i);
    assert ts[1..] == Tokens(p, i + 1);
    if n < |name| {
      assert name[n..][1..] == name[n + 1..];
      StarIsLater(p, name, i, n + 1);
      assert Rest(p, name, i, n) <==> Rest(p, name, i + 1, n) || Rest(p, name, i, n + 1);
    } else {
      assert Rest(p, name, i, n) <==> Rest(p, name, i + 1, n);
    }
  }

  /** Where the single-byte token at `i` ends. */
  function After(p: seq<byte>, i: nat): (j: nat)
    requires i < |p|
    ensures i < j <= |p|
  {
    if p[i] == OPEN && ClassEnd(p, i + 1).Some? then ClassEnd(p, i + 1).value + 1 else i + 1
  }

  /** A token other than a star consumes one byte and leaves the rest. */
  lemma {:induction false} OneByte(p: seq<byte>, name: seq<byte>, i: nat, n: nat)
    requires i < |p| && n <= |name| && p[i] != STAR
    ensures Tokens(p, i) != [] && !Tokens(p, i)[0].Star?
    ensures Rest(p, name, i, n) <==>
              n < |name| && Accepts(Tokens(p, i)[0], name[n]) && Rest(p, name, After(p, i), n + 1)
  {
    var ts := Tokens(p, i);
    if !ts[0].Broken? {
      assert ts[1..] == Tokens(p, After(p, i));
    }
    if n < |name| {
      assert name[n..][1..] == name[n + 1..];
    }
  }

  // ----- why the last star is enough, for any relation of positions -----

  /** Whether the pattern from one position matches the name from another. */
  type Reach = (int, int) -> bool

  ghost function Reaching(p: seq<byte>, name: seq<byte>): Reach
  {
    (i: int, n: int) => 0 <= i <= |p| && 0 <= n <= |name| && Rest(p, name, i, n)
  }

  ghost predicate Later(r: Reach, len: nat, i: int, n: int)
  {
    exists k :: n <= k <= len && r(i, k)
  }

  /** A star at `i` matches from here iff what follows it matches from here or later. */
  ghost predicate IsStar(r: Reach, len: nat, i: int)
  {
    forall n :: 0 <= n <= len ==> (r(i, n) <==> Later(r, len, i + 1, n))
  }

  /** The token at `i` consumes one byte, one of those `accepted`, and `next` follows it. */
  ghost predicate Consumes(r: Reach, len: nat, i: int, next: int, accepted: int -> bool)
  {
    forall n :: 0 <= n <= len ==> (r(i, n) <==> n < len && accepted(n) && r(next, n + 1))
  }

  /** Had the star taken the name up to `k`, the tokens since would reach `patternAt` as far
      after `k` as they now are after `starName`. */
  ghost predicate Carries(r: Reach, len: nat, star: nat, k: nat, c: Cursor)
  {
    r(star + 1, k) ==> k + (c.nameAt - c.starName) <= len && r(c.patternAt, k + (c.nameAt - c.starName))
  }

  /** Where the loop stands: the pattern and name positions, and the last star with the
      name position it was last tried from. */
  datatype Cursor = Cursor(patternAt: nat, nameAt: nat, star: Option<nat>, starName: nat)

  /** What the loop keeps: the pattern matches iff it matches from here, or from the last
      star at a later start; and any later start would carry the tokens since that star
      just as far ahead, so earlier stars need not be remembered. */
  ghost predicate Tracking(r: Reach, len: nat, c: Cursor)
  {
    && c.starName <= c.nameAt <= len
    && (c.star.None? ==> (r(0, 0) <==> r(c.patternAt, c.nameAt)))
    && (c.star.Some? ==>
          && (r(0, 0) <==> r(c.patternAt, c.nameAt) || Later(r, len, c.star.value + 1, c.starName + 1))
          && (forall k :: c.starName <= k <= len ==> Carries(r, len, c.star.value, k, c)))
  }

  lemma LaterSplits(r: Reach, len: nat, i: int, n: int)
    requires n <= len
    ensures Later(r, len, i, n) <==> r(i, n) || Later(r, len, i, n + 1)
  {
  }

  /** A later start from the last star reaches a star further on somewhere after here. */
  lemma LaterReaches(r: Reach, len: nat, c: Cursor)
    requires Tracking(r, len, c) && IsStar(r, len, c.patternAt)
    requires c.star.Some? && Later(r, len, c.star.value + 1, c.starName + 1)
    ensures Later(r, len, c.patternAt + 1, c.nameAt)
  {
    var k: int :| c.starName + 1 <= k <= len && r(c.star.value + 1, k);
    assert Carries(r, len, c.star.value, k, c);
    var later := k + (c.nameAt - c.starName);
    assert Later(r, len, c.patternAt + 1, later);
    var j :| later <= j <= len && r(c.patternAt + 1, j);
  }

  lemma TrackStar(r: Reach, len: nat, c: Cursor)
    requires Tracking(r, len, c) && IsStar(r, len, c.patternAt)
    ensures Tracking(r, len, Cursor(c.patternAt + 1, c.nameAt, Some(c.patternAt), c.nameAt))
  {
    if c.star.Some? && Later(r, len, c.star.value + 1, c.starName + 1) {
      LaterReaches(r, len, c);
    }
    LaterSplits(r, len, c.patternAt + 1, c.nameAt);
  }

  lemma TrackByte(r: Reach, len: nat, c: Cursor, next: nat, accepted: int -> bool)
    requires Tracking(r, len, c) && c.nameAt < len
    requires Consumes(r, len, c.patternAt, next, accepted) && accepted(c.nameAt)
    ensures Tracking(r, len, c.(patternAt := next, nameAt := c.nameAt + 1))
  {
    var d := c.(patternAt := next, nameAt := c.nameAt + 1);
    if c.star.Some? {
      forall k | c.starName <= k <= len ensures Carries(r, len, c.star.value, k, d) {
        assert Carries(r, len, c.star.value, k, c);
        var here := k + (c.nameAt - c.starName);
        assert 0 <= here <= len ==> (r(c.patternAt, here) <==> here < len && accepted(here) && r(next, here + 1));
      }
    }
  }

  lemma TrackRetry(r: Reach, len: nat, c: Cursor)
    requires Tracking(r, len, c) && c.nameAt < len && c.star.Some? && !r(c.patternAt, c.nameAt)
    ensures Tracking(r, len, Cursor(c.star.value + 1, c.starName + 1, c.star, c.starName + 1))
  {
    LaterSplits(r, len, c.star.value + 1, c.starName + 1);
  }

  /** At the end of the name a later start would overrun it. */
  lemma TrackEnd(r: Reach, len: nat, c: Cursor)
    requires Tracking(r, len, c) && c.nameAt == len
    ensures r(0, 0) <==> r(c.patternAt, len)
  {
    if c.star.Some? {
      var q := c.star.value + 1;
      forall k | c.starName + 1 <= k <= len ensures !r(q, k) {
        assert Carries(r, len, c.star.value, k, c);
      }
    }
  }

  // ----- the pattern gives such a relation -----

  lemma {:induction false} ReachesStar(p: seq<byte>, name: seq<byte>, i: nat)
    requires i < |p| && p[i] == STAR
    ensures IsStar(Reaching(p, name), |name|, i)
  {
    var r := Reaching(p, name);
    forall n | 0 <= n <= |name| ensures r(i, n) <==> Later(r, |name|, i + 1, n) {
      StarIsLater(p, name, i, n);
      var q := i + 1;
      if RestLater(p, name, q, n) {
        var k :| n <= k <= |name| && Rest(p, name, q, k);
        assert r(q, k);
      }
      if Later(r, |name|, q, n) {
        var k :| n <= k <= |name| && r(q, k);
        assert Rest(p, name, q, k);
      }
    }
  }

  ghost function Accepting(p: seq<byte>, name: seq<byte>, i: nat): int -> bool
    requires i < |p|
  {
    n => 0 <= n < |name| && Tokens(p, i) != [] && Accepts(Tokens(p, i)[0], name[n])
  }

  lemma {:induction false} ReachesByte(p: seq<byte>, name: seq<byte>, i: nat)
    requires i < |p| && p[i] != STAR
    ensures Consumes(Reaching(p, name), |name|, i, After(p, i), Accepting(p, name, i))
  {
    var r, accepted := Reaching(p, name), Accepting(p, name, i);
    forall n | 0 <= n <= |name|
      ensures r(i, n) <==> n < |name| && accepted(n) && r(After(p, i), n + 1)
    {
      OneByte(p, name, i, n);
    }
  }

  lemma {:induction false} NoRest(p: seq<byte>, name: seq<byte>, patternAt: nat, nameAt: nat)
    requires patternAt <= |p| && nameAt < |name|
    requires patternAt < |p| ==> p[patternAt] != STAR && !Accepts(Tokens(p, patternAt)[0], name[nameAt])
    ensures !Rest(p, name, patternAt, nameAt)
  {
    if patternAt < |p| {
      OneByte(p, name, patternAt, nameAt);
    }
  }

  /** Whether the single-byte token at `at` accepts `c`, and where the next token starts. */
  method AcceptsAt(pattern: seq<byte>, at: nat, c: byte) returns (accepted: bool, next: nat)
    requires at < |pattern| && pattern[at] != STAR
    ensures Tokens(pattern, at) != [] && accepted == Accepts(Tokens(pattern, at)[0], c)
    ensures next == After(pattern, at)
  {
    if pattern[at] == QUESTION {
      return true, at + 1;
    }
    if pattern[at] == OPEN {
      var end := FindClassEnd(pattern, at + 1);
      if end.None? {
        return false, at + 1;
      }
      accepted := ClassAccepts(pattern, at + 1, end.value, c);
      return accepted, end.value + 1;
    }
    return pattern[at] == c, at + 1;
  }

  /** At the end of the name only stars may be left. */
  method OnlyStars(pattern: seq<byte>, start: nat, ghost name: seq<byte>) returns (r: bool)
    requires start <= |pattern|
    ensures r == Rest(pattern, name, start, |name|)
  {
    var at := start;
    while at < |pattern| && pattern[at] == STAR
      invariant at <= |pattern| && Rest(pattern, name, start, |name|) == Rest(pattern, name, at, |name|)
    {
      assert Tokens(pattern, at)[1..] == Tokens(pattern, at + 1);
      at := at + 1;
    }
    if at < |pattern| {
      OneByte(pattern, name, at, |name|);
    }
    return at == |pattern|;
  }

  ghost predicate Follows(p: seq<byte>, name: seq<byte>, c: Cursor)
  {
    && c.patternAt <= |p| && (c.star.Some? ==> c.star.value < c.patternAt)
    && Tracking(Reaching(p, name), |name|, c)
  }

  /** One turn of the loop: the next cursor, or nothing when there is no star to retry. */
  method Turn(pattern: seq<byte>, name: seq<byte>, c: Cursor) returns (next: Option<Cursor>)
    requires Follows(pattern, name, c) && c.nameAt < |name|
    ensures next.Some? ==> Follows(pattern, name, next.value)
    ensures next.Some? ==>
              || StarRank(pattern, next.value) < StarRank(pattern, c)
              || (next.value.star == c.star && next.value.starName > c.starName)
              || (next.value.star == c.star && next.value.starName == c.starName && next.value.nameAt > c.nameAt)
    ensures next.None? ==> !Reaching(pattern, name)(0, 0)
  {
    ghost var r := Reaching(pattern, name);
    if c.patternAt < |pattern| {
      if pattern[c.patternAt] == STAR {
        ReachesStar(pattern, name, c.patternAt);
        TrackStar(r, |name|, c);
        return Some(Cursor(c.patternAt + 1, c.nameAt, Some(c.patternAt), c.nameAt));
      }
      var accepted, after := AcceptsAt(pattern, c.patternAt, name[c.nameAt]);
      if accepted {
        ReachesByte(pattern, name, c.patternAt);
        TrackByte(r, |name|, c, after, Accepting(pattern, name, c.patternAt));
        return Some(c.(patternAt := after, nameAt := c.nameAt + 1));
      }
    }
    NoRest(pattern, name, c.patternAt, c.nameAt);
    if c.star.None? {
      return None;
    }
    TrackRetry(r, |name|, c);
    return Some(Cursor(c.star.value + 1, c.starName + 1, c.star, c.starName + 1));
  }

  function StarRank(p: seq<byte>, c: Cursor): int { |p| - if c.star.Some? then c.star.value else -1 }

  /** Greedy matching with one remembered star decides the declarative match, for every
      pattern and every name; the loop ends because each turn moves the star on, or its
      trial position, or the name position. */
  method MatchesName(pattern: seq<byte>, name: seq<byte>) returns (r: bool)
    ensures r == Matches(Tokens(pattern, 0), name)
    ensures r <==> Splits(Tokens(pattern, 0), name)
  {
    MatchesIffSplits(Tokens(pattern, 0), name);
    assert name[0..] == name;
    var c := Cursor(0, 0, None, 0);
    while c.nameAt < |name|
      invariant Follows(pattern, name, c)
      decreases StarRank(pattern, c), |name| - c.starName, |name| - c.nameAt
    {
      var next := Turn(pattern, name, c);
      if next.None? {
        return false;
      }
      c := next.value;
    }
    TrackEnd(Reaching(pattern, name), |name|, c);
    r := OnlyStars(pattern, c.patternAt, name);
  }

  // ----- checking a component -----

  datatype Refusal = UnclosedClass | SplitStars | NamesNothing | TooLong

  /** The first fault of a component: a class left open, or two stars together that are not
      the whole component. */
  function Fault(ts: seq<Token>, alone: bool): Option<Refusal>
  {
    if |ts| == 0 then None
    else if ts[0].Broken? then Some(UnclosedClass)
    else if ts[0].Star? && |ts| > 1 && ts[1].Star? && !alone then Some(SplitStars)
    else Fault(ts[1..], alone)
  }

  /** Two stars stand together at `i`, and not as the whole component. */
  predicate Doubled(ts: seq<Token>, i: nat, alone: bool)
  {
    i + 1 < |ts| && ts[i].Star? && ts[i + 1].Star? && !alone
  }

  predicate Unclosed(ts: seq<Token>, i: nat) { i < |ts| && ts[i].Broken? }

  /** The fault is that of the first token that has one. */
  lemma {:induction false} FaultIsFirst(ts: seq<Token>, alone: bool) returns (at: nat)
    ensures Fault(ts, alone).None? ==> at == |ts|
    ensures Fault(ts, alone) == Some(UnclosedClass) <==> Unclosed(ts, at)
    ensures Fault(ts, alone) == Some(SplitStars) <==> Doubled(ts, at, alone)
    ensures Fault(ts, alone).Some? ==> Unclosed(ts, at) || Doubled(ts, at, alone)
    ensures at <= |ts| && forall i :: 0 <= i < at ==> !Unclosed(ts, i) && !Doubled(ts, i, alone)
  {
    if |ts| == 0 {
      at := 0;
    } else if Unclosed(ts, 0) || Doubled(ts, 0, alone) {
      at := 0;
    } else {
      var rest := ts[1..];
      var k := FaultIsFirst(rest, alone);
      at := k + 1;
      forall i | 0 <= i < at ensures !Unclosed(ts, i) && !Doubled(ts, i, alone) {
        assert i > 0 ==> !Unclosed(rest, i - 1) && !Doubled(rest, i - 1, alone);
      }
    }
  }

  /** The same, read off the pattern from `at`. */
  function FaultFrom(p: seq<byte>, at: nat, alone: bool): Option<Refusal>
    requires at <= |p|
    decreases |p| - at
  {
    if at == |p| then None
    else if p[at] == OPEN && ClassEnd(p, at + 1).None? then Some(UnclosedClass)
    else if p[at] == STAR && at + 1 < |p| && p[at + 1] == STAR && !alone then Some(SplitStars)
    else FaultFrom(p, After(p, at), alone)
  }

  lemma {:induction false} FaultFromTokens(p: seq<byte>, at: nat, alone: bool)
    requires at <= |p|
    ensures FaultFrom(p, at, alone) == Fault(Tokens(p, at), alone)
    decreases |p| - at
  {
    if at < |p| {
      FaultFromTokens(p, After(p, at), alone);
      var ts := Tokens(p, at);
      if !ts[0].Broken? {
        assert ts[1..] == Tokens(p, After(p, at));
      }
    }
  }

  /** One token: where the next one starts, or the fault of this one. */
  method CheckToken(component: seq<byte>, at: nat) returns (r: Result<nat, Refusal>)
    requires at < |component|
    ensures r.Err? ==> FaultFrom(component, at, |component| == 2) == Some(r.error)
    ensures r.Ok? ==>
              && at < r.value <= |component|
              && FaultFrom(component, at, |component| == 2) == FaultFrom(component, r.value, |component| == 2)
  {
    if component[at] == OPEN {
      var end := FindClassEnd(component, at + 1);
      return if end.None? then Err(UnclosedClass) else Ok(end.value + 1);
    }
    if component[at] == STAR && at + 1 < |component| && component[at + 1] == STAR && |component| != 2 {
      return Err(SplitStars);
    }
    return Ok(at + 1);
  }

  method CheckComponent(component: seq<byte>) returns (r: Option<Refusal>)
    ensures r == Fault(Tokens(component, 0), |component| == 2)
  {
    var at := 0;
    FaultFromTokens(component, 0, |component| == 2);
    while at < |component|
      invariant at <= |component|
      invariant FaultFrom(component, at, |component| == 2) == FaultFrom(component, 0, |component| == 2)
    {
      var next := CheckToken(component, at);
      if next.Err? {
        return Some(next.error);
      }
      at := next.value;
    }
    return None;
  }
}
