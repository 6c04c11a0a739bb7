/** JSON documents as a writer builds them: the calls that write one, the text they stand for
    and the documents that are half written. */
module JsonDocument {
  import opened Wrappers

  type Text = seq<char>

  // ----- documents and their text -----

  /** A document as it was written: values handed over whole, and containers. */
  datatype Tree = Written(text: Text) | Array(items: seq<Tree>) | Object(members: seq<Member>)
  datatype Member = Member(key: Text, value: Tree)

  function Render(t: Tree): Text
  {
    match t
    case Written(text) => text
    case Array(items) => "[" + RenderItems(items) + "]"
    case Object(members) => "{" + RenderMembers(members) + "}"
  }

  function RenderItems(items: seq<Tree>): Text
  {
    if |items| == 0 then ""
    else
      var n := |items| - 1;
      RenderItems(items[..n]) + (if n == 0 then "" else ",") + Render(items[n])
  }

  function RenderMembers(members: seq<Member>): Text
  {
    if |members| == 0 then ""
    else
      var n := |members| - 1;
      RenderMembers(members[..n]) + (if n == 0 then "" else ",") + members[n].key + ":" + Render(members[n].value)
  }

  // ----- calls -----

  datatype Call = Value(text: Text) | StartArray | EndArray | StartObject | EndObject | Key(key: Text)

  /** The calls that write a document. */
  function Calls(t: Tree): seq<Call>
  {
    match t
    case Written(text) => [Value(text)]
    case Array(items) => [StartArray] + ItemCalls(items) + [EndArray]
    case Object(members) => [StartObject] + MemberCalls(members) + [EndObject]
  }

  function ItemCalls(items: seq<Tree>): seq<Call>
  {
    if |items| == 0 then [] else ItemCalls(items[..|items| - 1]) + Calls(items[|items| - 1])
  }

  function MemberCalls(members: seq<Member>): seq<Call>
  {
    if |members| == 0 then []
    else
      var n := |members| - 1;
      MemberCalls(members[..n]) + [Key(members[n].key)] + Calls(members[n].value)
  }

  // ----- a document half written -----

  /** A container still open: what it holds so far, and the key that awaits its value. */
  datatype Open = OpenArray(items: seq<Tree>) | OpenObject(members: seq<Member>, key: Option<Text>)

  datatype Doc = Doc(stack: seq<Open>, root: Option<Tree>)

  predicate TakesValue(open: Open) { open.OpenArray? || open.key.Some? }

  /** Every container with an open child awaits that child. */
  predicate Nested(doc: Doc)
  {
    && (forall i :: 0 <= i < |doc.stack| - 1 ==> TakesValue(doc.stack[i]))
    && (doc.root.Some? ==> doc.stack == [])
  }

  predicate Expects(doc: Doc)
  {
    if doc.stack == [] then doc.root.None? else TakesValue(doc.stack[|doc.stack| - 1])
  }

  function AddedTo(open: Open, v: Tree): Open
    requires TakesValue(open)
  {
    match open
    case OpenArray(items) => OpenArray(items + [v])
    case OpenObject(members, key) => OpenObject(members + [Member(key.value, v)], None)
  }

  function Popped(doc: Doc): Doc
    requires |doc.stack| > 0
  {
    doc.(stack := doc.stack[..|doc.stack| - 1])
  }

  function Pushed(doc: Doc, open: Open): Doc { doc.(stack := doc.stack + [open]) }

  function Added(doc: Doc, v: Tree): Doc
    requires Nested(doc) && Expects(doc)
  {
    if doc.stack == [] then Doc([], Some(v)) else Pushed(Popped(doc), AddedTo(doc.stack[|doc.stack| - 1], v))
  }

  /** What a call makes of the document, or nothing where it has no place. */
  function Accept(doc: Doc, call: Call): (r: Option<Doc>)
    requires Nested(doc)
    ensures r.Some? ==> Nested(r.value)
  {
    var n := |doc.stack| - 1;
    match call
    case Value(text) => if Expects(doc) then Some(Added(doc, Written(text))) else None
    case StartArray => if Expects(doc) then Some(Pushed(doc, OpenArray([]))) else None
    case StartObject => if Expects(doc) then Some(Pushed(doc, OpenObject([], None))) else None
    case Key(key) =>
      if n >= 0 && doc.stack[n].OpenObject? && doc.stack[n].key.None?
      then Some(Pushed(Popped(doc), doc.stack[n].(key := Some(key)))) else None
    case EndArray =>
      if n >= 0 && doc.stack[n].OpenArray? then Some(Added(Popped(doc), Array(doc.stack[n].items))) else None
    case EndObject =>
      if n >= 0 && doc.stack[n].OpenObject? && doc.stack[n].key.None?
      then Some(Added(Popped(doc), Object(doc.stack[n].members))) else None
  }

  // ----- the text and the calls of a half-written document -----

  function OpenText(open: Open): Text
  {
    match open
    case OpenArray(items) => "[" + RenderItems(items)
    case OpenObject(members, key) =>
      "{" + RenderMembers(members)
      + if key.Some? then (if members == [] then "" else ",") + key.value + ":" else ""
  }

  /** What separates the next value from what is there. */
  function Lead(open: Open): Text
  {
    if open.OpenArray? && open.items != [] then "," else ""
  }

  function StackText(stack: seq<Open>): Text
  {
    if |stack| == 0 then ""
    else
      var n := |stack| - 1;
      StackText(stack[..n]) + (if n > 0 then Lead(stack[n - 1]) else "") + OpenText(stack[n])
  }

  function TextOf(doc: Doc): Text
  {
    if doc.root.Some? then Render(doc.root.value) else StackText(doc.stack)
  }

  function LeadOf(doc: Doc): Text { if doc.stack == [] then "" else Lead(doc.stack[|doc.stack| - 1]) }

  /** What the writer appends for an accepted call. */
  function Emitted(doc: Doc, call: Call): Text
  {
    match call
    case Value(text) => LeadOf(doc) + text
    case StartArray => LeadOf(doc) + "["
    case StartObject => LeadOf(doc) + "{"
    case EndArray => "]"
    case EndObject => "}"
    case Key(key) =>
      (if doc.stack != [] && doc.stack[|doc.stack| - 1].OpenObject? && doc.stack[|doc.stack| - 1].members != [] then "," else "")
      + key + ":"
  }

  lemma Assoc<T>(a: seq<T>, b: seq<T>, c: seq<T>)
    ensures a + (b + c) == (a + b) + c
  {
  }

  lemma Regroup(o: Text, a: Text, b: Text, k: Text, e: Text, c: Text)
    ensures o + (a + b + k + e + c) + "" == o + a + (b + k + e) + "" + c
  {
    assert o + (a + b + k + e + c) + "" == o + (a + b + k + e + c);
    assert o + a + (b + k + e) + "" == o + a + (b + k + e);
    assert o + (a + b + k + e) == o + a + (b + k + e);
  }

  lemma ItemsSnoc(items: seq<Tree>, v: Tree)
    ensures RenderItems(items + [v]) == RenderItems(items) + (if items == [] then "" else ",") + Render(v)
    ensures ItemCalls(items + [v]) == ItemCalls(items) + Calls(v)
  {
    assert (items + [v])[..|items|] == items;
  }

  lemma MembersSnoc(members: seq<Member>, m: Member)
    ensures RenderMembers(members + [m])
         == RenderMembers(members) + (if members == [] then "" else ",") + m.key + ":" + Render(m.value)
    ensures MemberCalls(members + [m]) == MemberCalls(members) + [Key(m.key)] + Calls(m.value)
  {
    assert (members + [m])[..|members|] == members;
  }

  lemma AddedItemText(items: seq<Tree>, v: Tree)
    ensures OpenText(OpenArray(items + [v])) == OpenText(OpenArray(items)) + Lead(OpenArray(items)) + Render(v)
  {
    ItemsSnoc(items, v);
    var a, b, c := RenderItems(items), Lead(OpenArray(items)), Render(v);
    Assoc("[", a + b, c);
    Assoc("[", a, b);
  }

  lemma AddedMemberText(members: seq<Member>, key: Text, v: Tree)
    ensures OpenText(OpenObject(members + [Member(key, v)], None))
         == OpenText(OpenObject(members, Some(key))) + "" + Render(v)
  {
    MembersSnoc(members, Member(key, v));
    Regroup("{", RenderMembers(members), if members == [] then "" else ",", key, ":", Render(v));
  }

  lemma AddedText(open: Open, v: Tree)
    requires TakesValue(open)
    ensures OpenText(AddedTo(open, v)) == OpenText(open) + Lead(open) + Render(v)
  {
    match open
    case OpenArray(items) => AddedItemText(items, v);
    case OpenObject(members, key) => AddedMemberText(members, key.value, v);
  }

  lemma PushedText(doc: Doc, open: Open)
    requires doc.root.None?
    ensures TextOf(Pushed(doc, open)) == TextOf(doc) + LeadOf(doc) + OpenText(open)
  {
    assert (doc.stack + [open])[..|doc.stack|] == doc.stack;
  }

  lemma TopAgain(doc: Doc)
    requires |doc.stack| > 0
    ensures Pushed(Popped(doc), doc.stack[|doc.stack| - 1]) == doc
  {
    assert doc.stack[..|doc.stack| - 1] + [doc.stack[|doc.stack| - 1]] == doc.stack;
  }

  /** Adding a value adds its text, after the comma it may need. */
  lemma AddedDocText(doc: Doc, v: Tree)
    requires Nested(doc) && Expects(doc)
    ensures TextOf(Added(doc, v)) == TextOf(doc) + LeadOf(doc) + Render(v)
  {
    if doc.stack != [] {
      var rest, top := Popped(doc), doc.stack[|doc.stack| - 1];
      TopAgain(doc);
      PushedText(rest, top);
      AddedText(top, v);
      PushedText(rest, AddedTo(top, v));
      var x, a, b, c := TextOf(rest) + LeadOf(rest), OpenText(top), Lead(top), Render(v);
      Assoc(x, a + b, c);
      Assoc(x, a, b);
    }
  }

  lemma KeyText(doc: Doc, key: Text)
    requires Nested(doc) && Accept(doc, Key(key)).Some?
    ensures TextOf(Accept(doc, Key(key)).value) == TextOf(doc) + Emitted(doc, Key(key))
  {
    var rest, top := Popped(doc), doc.stack[|doc.stack| - 1];
    TopAgain(doc);
    PushedText(rest, top);
    PushedText(rest, top.(key := Some(key)));
    var x, a, b := TextOf(rest) + LeadOf(rest), "{" + RenderMembers(top.members), Emitted(doc, Key(key));
    assert OpenText(top) == a + "" == a;
    assert OpenText(top.(key := Some(key))) == a + b;
    Assoc(x, a, b);
  }

  lemma EndText(doc: Doc, v: Tree, close: Text)
    requires Nested(doc) && |doc.stack| > 0
    requires Render(v) == OpenText(doc.stack[|doc.stack| - 1]) + close
    ensures TextOf(Added(Popped(doc), v)) == TextOf(doc) + close
  {
    var rest, top := Popped(doc), doc.stack[|doc.stack| - 1];
    TopAgain(doc);
    PushedText(rest, top);
    AddedDocText(rest, v);
    Assoc(TextOf(rest) + LeadOf(rest), OpenText(top), close);
  }

  lemma ValueText(doc: Doc, text: Text)
    requires Nested(doc) && Expects(doc)
    ensures TextOf(Added(doc, Written(text))) == TextOf(doc) + (LeadOf(doc) + text)
  {
    AddedDocText(doc, Written(text));
    Assoc(TextOf(doc), LeadOf(doc), text);
  }

  lemma StartText(doc: Doc, open: Open, bracket: Text)
    requires doc.root.None? && OpenText(open) == bracket
    ensures TextOf(Pushed(doc, open)) == TextOf(doc) + (LeadOf(doc) + bracket)
  {
    PushedText(doc, open);
    Assoc(TextOf(doc), LeadOf(doc), bracket);
  }

  /** The bytes of the document after a call are those before it and the ones appended. */
  lemma AcceptText(doc: Doc, call: Call)
    requires Nested(doc) && Accept(doc, call).Some?
    ensures TextOf(Accept(doc, call).value) == TextOf(doc) + Emitted(doc, call)
  {
    match call
    case Value(text) =>
      ValueText(doc, text);
    case StartArray =>
      assert OpenText(OpenArray([])) == "[";
      StartText(doc, OpenArray([]), "[");
    case StartObject =>
      assert OpenText(OpenObject([], None)) == "{";
      StartText(doc, OpenObject([], None), "{");
    case Key(key) =>
      KeyText(doc, key);
    case EndArray =>
      EndText(doc, Array(doc.stack[|doc.stack| - 1].items), "]");
    case EndObject =>
      var members := doc.stack[|doc.stack| - 1].members;
      assert "{" + RenderMembers(members) + "" == "{" + RenderMembers(members);
      EndText(doc, Object(members), "}");
  }

  // ----- the accepted calls are exactly those of a document -----

  function OpenCalls(open: Open): seq<Call>
  {
    match open
    case OpenArray(items) => [StartArray] + ItemCalls(items)
    case OpenObject(members, key) => [StartObject] + MemberCalls(members) + if key.Some? then [Key(key.value)] else []
  }

  function StackCalls(stack: seq<Open>): seq<Call>
  {
    if |stack| == 0 then [] else StackCalls(stack[..|stack| - 1]) + OpenCalls(stack[|stack| - 1])
  }

  function CallsOf(doc: Doc): seq<Call>
  {
    if doc.root.Some? then Calls(doc.root.value) else StackCalls(doc.stack)
  }

  lemma AddedCalls(open: Open, v: Tree)
    requires TakesValue(open)
    ensures OpenCalls(AddedTo(open, v)) == OpenCalls(open) + Calls(v)
  {
    match open
    case OpenArray(items) =>
      ItemsSnoc(items, v);
      Assoc([StartArray], ItemCalls(items), Calls(v));
    case OpenObject(members, key) =>
      MembersSnoc(members, Member(key.value, v));
      var a, b := MemberCalls(members), [Key(key.value)];
      assert [StartObject] + (a + b + Calls(v)) + [] == [StartObject] + a + b + Calls(v);
  }

  lemma PushedCalls(doc: Doc, open: Open)
    requires doc.root.None?
    ensures CallsOf(Pushed(doc, open)) == CallsOf(doc) + OpenCalls(open)
  {
    assert (doc.stack + [open])[..|doc.stack|] == doc.stack;
  }

  lemma AddedDocCalls(doc: Doc, v: Tree)
    requires Nested(doc) && Expects(doc)
    ensures CallsOf(Added(doc, v)) == CallsOf(doc) + Calls(v)
  {
    if doc.stack != [] {
      var rest, top := Popped(doc), doc.stack[|doc.stack| - 1];
      TopAgain(doc);
      PushedCalls(rest, top);
      AddedCalls(top, v);
      PushedCalls(rest, AddedTo(top, v));
      Assoc(CallsOf(rest), OpenCalls(top), Calls(v));
    }
  }

  lemma KeyCalls(doc: Doc, key: Text)
    requires Nested(doc) && Accept(doc, Key(key)).Some?
    ensures CallsOf(Accept(doc, Key(key)).value) == CallsOf(doc) + [Key(key)]
  {
    var rest, top := Popped(doc), doc.stack[|doc.stack| - 1];
    TopAgain(doc);
    PushedCalls(rest, top);
    PushedCalls(rest, top.(key := Some(key)));
    var a := [StartObject] + MemberCalls(top.members);
    assert OpenCalls(top) == a + [] == a;
    Assoc(CallsOf(rest), a, [Key(key)]);
  }

  lemma EndCalls(doc: Doc, v: Tree, close: Call)
    requires Nested(doc) && |doc.stack| > 0
    requires Calls(v) == OpenCalls(doc.stack[|doc.stack| - 1]) + [close]
    ensures CallsOf(Added(Popped(doc), v)) == CallsOf(doc) + [close]
  {
    var rest, top := Popped(doc), doc.stack[|doc.stack| - 1];
    TopAgain(doc);
    PushedCalls(rest, top);
    AddedDocCalls(rest, v);
    Assoc(CallsOf(rest), OpenCalls(top), [close]);
  }

  lemma AcceptCalls(doc: Doc, call: Call)
    requires Nested(doc) && Accept(doc, call).Some?
    ensures CallsOf(Accept(doc, call).value) == CallsOf(doc) + [call]
  {
    match call
    case Value(text) => AddedDocCalls(doc, Written(text));
    case StartArray =>
      PushedCalls(doc, OpenArray([]));
      assert OpenCalls(OpenArray([])) == [StartArray];
    case StartObject =>
      PushedCalls(doc, OpenObject([], None));
      assert OpenCalls(OpenObject([], None)) == [StartObject];
    case Key(key) => KeyCalls(doc, key);
    case EndArray => EndCalls(doc, Array(doc.stack[|doc.stack| - 1].items), EndArray);
    case EndObject =>
      var members := doc.stack[|doc.stack| - 1].members;
      assert [StartObject] + MemberCalls(members) + [] == [StartObject] + MemberCalls(members);
      EndCalls(doc, Object(members), EndObject);
  }

  const Blank := Doc([], None)

  function Run(doc: Doc, calls: seq<Call>): (r: Option<Doc>)
    requires Nested(doc)
    ensures r.Some? ==> Nested(r.value)
    decreases |calls|
  {
    if |calls| == 0 then Some(doc)
    else
      var next := Accept(doc, calls[0]);
      if next.None? then None else Run(next.value, calls[1..])
  }

  lemma {:induction false} RunCalls(doc: Doc, calls: seq<Call>)
    requires Nested(doc) && Run(doc, calls).Some?
    ensures CallsOf(Run(doc, calls).value) == CallsOf(doc) + calls
    decreases |calls|
  {
    if |calls| > 0 {
      var next := Accept(doc, calls[0]).value;
      AcceptCalls(doc, calls[0]);
      RunCalls(next, calls[1..]);
      var before, after := CallsOf(doc), CallsOf(next);
      assert after + calls[1..] == before + calls by {
        Assoc(before, [calls[0]], calls[1..]);
        assert [calls[0]] + calls[1..] == calls;
      }
    }
  }

  lemma {:induction false} RunConcat(doc: Doc, a: seq<Call>, b: seq<Call>)
    requires Nested(doc) && Run(doc, a).Some?
    ensures Run(doc, a + b) == Run(Run(doc, a).value, b)
    decreases |a|
  {
    if |a| == 0 {
      assert a + b == b;
    } else {
      assert (a + b)[1..] == a[1..] + b;
      RunConcat(Accept(doc, a[0]).value, a[1..], b);
    }
  }

  lemma RunOne(doc: Doc, call: Call)
    requires Nested(doc)
    ensures Run(doc, [call]) == Accept(doc, call)
  {
  }

  /** Wherever a value may stand, the calls of a document add that document. */
  lemma {:induction false} TreeRuns(doc: Doc, t: Tree)
    requires Nested(doc) && Expects(doc)
    ensures Run(doc, Calls(t)) == Some(Added(doc, t))
    decreases t, 1
  {
    match t
    case Written(text) =>
      RunOne(doc, Value(text));
    case Array(items) =>
      RunOne(doc, StartArray);
      var inner := Pushed(doc, OpenArray([]));
      ItemsRun(doc, items);
      RunConcat(doc, [StartArray], ItemCalls(items));
      RunConcat(doc, [StartArray] + ItemCalls(items), [EndArray]);
      var full := Pushed(doc, OpenArray(items));
      assert Popped(full) == doc;
      RunOne(full, EndArray);
    case Object(members) =>
      RunOne(doc, StartObject);
      MembersRun(doc, members);
      RunConcat(doc, [StartObject], MemberCalls(members));
      RunConcat(doc, [StartObject] + MemberCalls(members), [EndObject]);
      var full := Pushed(doc, OpenObject(members, None));
      assert Popped(full) == doc;
      RunOne(full, EndObject);
  }

  lemma {:induction false} ItemsRun(doc: Doc, items: seq<Tree>)
    requires Nested(doc) && Expects(doc)
    ensures Nested(Pushed(doc, OpenArray([]))) && Nested(Pushed(doc, OpenArray(items)))
    ensures Run(Pushed(doc, OpenArray([])), ItemCalls(items)) == Some(Pushed(doc, OpenArray(items)))
    decreases items, 0
  {
    if |items| > 0 {
      var n := |items| - 1;
      var first, last := items[..n], items[n];
      ItemsRun(doc, first);
      TreeRuns(Pushed(doc, OpenArray(first)), last);
      ItemsRunNext(doc, first, last);
      assert first + [last] == items;
    }
  }

  lemma ItemsRunNext(doc: Doc, items: seq<Tree>, v: Tree)
    requires Nested(doc) && Expects(doc)
    requires Nested(Pushed(doc, OpenArray([]))) && Nested(Pushed(doc, OpenArray(items)))
    requires Run(Pushed(doc, OpenArray([])), ItemCalls(items)) == Some(Pushed(doc, OpenArray(items)))
    requires Expects(Pushed(doc, OpenArray(items)))
    requires Run(Pushed(doc, OpenArray(items)), Calls(v)) == Some(Added(Pushed(doc, OpenArray(items)), v))
    ensures Nested(Pushed(doc, OpenArray(items + [v])))
    ensures Run(Pushed(doc, OpenArray([])), ItemCalls(items + [v])) == Some(Pushed(doc, OpenArray(items + [v])))
  {
    ItemsSnoc(items, v);
    RunConcat(Pushed(doc, OpenArray([])), ItemCalls(items), Calls(v));
    AddedOnTop(doc, OpenArray(items), v);
  }

  lemma AddedOnTop(doc: Doc, open: Open, v: Tree)
    requires Nested(doc) && Expects(doc) && TakesValue(open) && Nested(Pushed(doc, open))
    ensures Expects(Pushed(doc, open))
    ensures Added(Pushed(doc, open), v) == Pushed(doc, AddedTo(open, v))
  {
    assert Popped(Pushed(doc, open)) == doc;
  }

  lemma {:induction false} MembersRun(doc: Doc, members: seq<Member>)
    requires Nested(doc) && Expects(doc)
    ensures Nested(Pushed(doc, OpenObject([], None))) && Nested(Pushed(doc, OpenObject(members, None)))
    ensures Run(Pushed(doc, OpenObject([], None)), MemberCalls(members)) == Some(Pushed(doc, OpenObject(members, None)))
    decreases members, 0
  {
    if |members| > 0 {
      var n := |members| - 1;
      var m := members[n];
      MembersRun(doc, members[..n]);
      var start := Pushed(doc, OpenObject([], None));
      var before := Pushed(doc, OpenObject(members[..n], None));
      var keyed := Pushed(doc, OpenObject(members[..n], Some(m.key)));
      assert Popped(before) == doc && Popped(keyed) == doc;
      RunOne(before, Key(m.key));
      TreeRuns(keyed, m.value);
      RunConcat(start, MemberCalls(members[..n]), [Key(m.key)]);
      RunConcat(start, MemberCalls(members[..n]) + [Key(m.key)], Calls(m.value));
      assert members[..n] + [m] == members;
      AddedOnTop(doc, OpenObject(members[..n], Some(m.key)), m.value);
    }
  }

  /** The writer accepts a run of calls as one complete document exactly when they are the
      calls of that document. */
  lemma CompleteIff(calls: seq<Call>, t: Tree)
    ensures Run(Blank, calls) == Some(Doc([], Some(t))) <==> calls == Calls(t)
  {
    TreeRuns(Blank, t);
    if Run(Blank, calls) == Some(Doc([], Some(t))) {
      CompleteCalls(calls, t);
    }
  }

  lemma CompleteCalls(calls: seq<Call>, t: Tree)
    requires Run(Blank, calls) == Some(Doc([], Some(t)))
    ensures calls == Calls(t)
  {
    RunCalls(Blank, calls);
    assert CallsOf(Blank) == [] && CallsOf(Doc([], Some(t))) == Calls(t);
  }

  // ----- JSON text -----

  predicate IsDigit(c: char) { '0' <= c <= '9' }

  predicate IsHex(c: char) { IsDigit(c) || 'a' <= c <= 'f' || 'A' <= c <= 'F' }

  predicate IsDigits(t: Text) { |t| > 0 && forall i :: 0 <= i < |t| ==> IsDigit(t[i]) }

  /** The characters of a string after its opening quote: section 7 of RFC 8259. */
  predicate IsStringTail(t: Text)
  {
    if |t| == 0 then false
    else if t[0] == '"' then |t| == 1
    else if t[0] != '\\' then t[0] >= ' ' && IsStringTail(t[1..])
    else if |t| < 2 then false
    else if t[1] != 'u' then t[1] in "\"\\/bfnrt" && IsStringTail(t[2..])
    else |t| >= 6 && (forall i :: 2 <= i < 6 ==> IsHex(t[i])) && IsStringTail(t[6..])
  }

  predicate IsString(t: Text) { |t| > 0 && t[0] == '"' && IsStringTail(t[1..]) }

  /** Section 6 of RFC 8259. */
  ghost predicate IsNumber(t: Text)
  {
    exists sign, whole, fraction, exponent ::
      && t == sign + whole + fraction + exponent
      && (sign == "" || sign == "-")
      && IsDigits(whole) && (whole[0] == '0' ==> |whole| == 1)
      && (fraction == "" || (fraction[0] == '.' && IsDigits(fraction[1..])))
      && IsExponent(exponent)
  }

  predicate IsExponent(t: Text)
  {
    || t == ""
    || (t[0] in "eE" && |t| > 1 && (if t[1] in "+-" then IsDigits(t[2..]) else IsDigits(t[1..])))
  }

  ghost predicate IsLiteral(t: Text) { t == "null" || t == "true" || t == "false" || IsNumber(t) || IsString(t) }

  /** Insignificant whitespace. */
  predicate IsBlank(t: Text) { forall i :: 0 <= i < |t| ==> t[i] in " \t\n\r" }

  /** A derivation in the grammar of sections 2 to 5 of RFC 8259: a literal, array or object
      with the whitespace around it, and the whitespace after an opening bracket. */
  datatype Json =
    | Leaf(before: Text, literal: Text, after: Text)
    | List(before: Text, gap: Text, items: seq<Json>, after: Text)
    | Record(before: Text, gap: Text, fields: seq<Field>, after: Text)

  /** A member of an object, with the whitespace around its name. */
  datatype Field = Field(before: Text, name: Text, after: Text, value: Json)

  function Spell(j: Json): Text
    decreases j, 1
  {
    j.before + Core(j) + j.after
  }

  function Core(j: Json): Text
    decreases j, 0
  {
    match j
    case Leaf(_, literal, _) => literal
    case List(_, gap, items, _) => "[" + gap + SpellItems(items) + "]"
    case Record(_, gap, fields, _) => "{" + gap + SpellFields(fields) + "}"
  }

  function SpellItems(items: seq<Json>): Text
    decreases items, 0
  {
    if |items| == 0 then ""
    else
      var n := |items| - 1;
      SpellItems(items[..n]) + (if n == 0 then "" else ",") + Spell(items[n])
  }

  function SpellFields(fields: seq<Field>): Text
    decreases fields, 0
  {
    if |fields| == 0 then ""
    else
      var n := |fields| - 1;
      var f := fields[n];
      SpellFields(fields[..n]) + (if n == 0 then "" else ",") + (f.before + f.name + f.after) + ":" + Spell(f.value)
  }

  /** Every leaf is a literal, every name a string and the rest whitespace. */
  ghost predicate Derives(j: Json)
  {
    match j
    case Leaf(before, literal, after) => IsBlank(before) && IsLiteral(literal) && IsBlank(after)
    case List(before, gap, items, after) =>
      IsBlank(before) && IsBlank(gap) && IsBlank(after) && forall i :: 0 <= i < |items| ==> Derives(items[i])
    case Record(before, gap, fields, after) =>
      IsBlank(before) && IsBlank(gap) && IsBlank(after) && forall i :: 0 <= i < |fields| ==> FieldDerives(fields[i])
  }

  ghost predicate FieldDerives(f: Field)
  {
    IsBlank(f.before) && IsString(f.name) && IsBlank(f.after) && Derives(f.value)
  }

  /** A JSON text of section 2 of RFC 8259. */
  ghost predicate IsJson(text: Text) { exists j :: Derives(j) && Spell(j) == text }

  /** A member name: a string with whitespace around it. */
  ghost predicate IsName(text: Text)
  {
    exists before, name, after :: IsBlank(before) && IsString(name) && IsBlank(after) && text == before + name + after
  }

  /** More whitespace around a JSON text leaves it one. */
  lemma PaddedIsJson(before: Text, text: Text, after: Text)
    requires IsBlank(before) && IsJson(text) && IsBlank(after)
    ensures IsJson(before + text + after)
  {
    var j :| Derives(j) && Spell(j) == text;
    var padded := j.(before := before + j.before, after := j.after + after);
    assert Derives(padded) && Core(padded) == Core(j);
    Regrouped(before, j.before, Core(j), j.after, after);
  }

  lemma Regrouped(a: Text, b: Text, c: Text, d: Text, e: Text)
    ensures (a + b) + c + (d + e) == a + (b + c + d) + e
  {
  }

  /** Every value handed over whole is itself JSON. */
  ghost predicate Sound(t: Tree)
  {
    match t
    case Written(text) => IsJson(text)
    case Array(items) => forall i :: 0 <= i < |items| ==> Sound(items[i])
    case Object(members) => forall i :: 0 <= i < |members| ==> SoundMember(members[i])
  }

  ghost predicate SoundMember(m: Member) { IsName(m.key) && Sound(m.value) }

  /** Values handed over whole may be replaced by their own derivations. */
  lemma {:induction false} Expand(t: Tree) returns (j: Json)
    requires Sound(t)
    ensures Derives(j) && Spell(j) == Render(t)
    decreases t, 1
  {
    match t
    case Written(text) =>
      j :| Derives(j) && Spell(j) == text;
    case Array(items) =>
      var js := ExpandItems(items);
      j := PlainList(js);
    case Object(members) =>
      var fields := ExpandMembers(members);
      j := PlainRecord(fields);
  }

  lemma PlainList(items: seq<Json>) returns (j: Json)
    requires AllDerive(items)
    ensures Derives(j) && Spell(j) == "[" + SpellItems(items) + "]"
  {
    j := List("", "", items, "");
    Unpadded("[", SpellItems(items), "]");
  }

  lemma PlainRecord(fields: seq<Field>) returns (j: Json)
    requires AllFieldsDerive(fields)
    ensures Derives(j) && Spell(j) == "{" + SpellFields(fields) + "}"
  {
    j := Record("", "", fields, "");
    Unpadded("{", SpellFields(fields), "}");
  }

  lemma Unpadded(open: Text, text: Text, close: Text)
    ensures "" + (open + "" + text + close) + "" == open + text + close
  {
  }

  lemma SpellItemsSnoc(items: seq<Json>, j: Json)
    ensures SpellItems(items + [j]) == SpellItems(items) + (if |items| == 0 then "" else ",") + Spell(j)
  {
    assert (items + [j])[..|items|] == items;
  }

  lemma SpellFieldsSnoc(fields: seq<Field>, f: Field)
    ensures SpellFields(fields + [f]) == SpellFields(fields) + (if |fields| == 0 then "" else ",")
                                         + (f.before + f.name + f.after) + ":" + Spell(f.value)
  {
    assert (fields + [f])[..|fields|] == fields;
  }

  lemma ExpandName(key: Text, value: Json) returns (f: Field)
    requires IsName(key) && Derives(value)
    ensures FieldDerives(f) && f.before + f.name + f.after == key && f.value == value
  {
    var before, name, after :| IsBlank(before) && IsString(name) && IsBlank(after) && key == before + name + after;
    f := Field(before, name, after, value);
  }

  ghost predicate AllDerive(items: seq<Json>) { forall i :: 0 <= i < |items| ==> Derives(items[i]) }
  ghost predicate AllSound(items: seq<Tree>) { forall i :: 0 <= i < |items| ==> Sound(items[i]) }
  ghost predicate AllFieldsDerive(fields: seq<Field>) { forall i :: 0 <= i < |fields| ==> FieldDerives(fields[i]) }
  ghost predicate AllSoundMembers(members: seq<Member>) { forall i :: 0 <= i < |members| ==> SoundMember(members[i]) }

  lemma AllDeriveSnoc(items: seq<Json>, j: Json)
    requires AllDerive(items) && Derives(j)
    ensures AllDerive(items + [j])
  {
  }

  lemma AllFieldsDeriveSnoc(fields: seq<Field>, f: Field)
    requires AllFieldsDerive(fields) && FieldDerives(f)
    ensures AllFieldsDerive(fields + [f])
  {
  }

  lemma {:induction false} ExpandItems(items: seq<Tree>) returns (js: seq<Json>)
    requires AllSound(items)
    ensures |js| == |items| && AllDerive(js) && SpellItems(js) == RenderItems(items)
    decreases items, 0
  {
    if |items| == 0 {
      js := [];
    } else {
      var n := |items| - 1;
      var first, last := items[..n], items[n];
      assert AllSound(first) && Sound(last);
      var less := ExpandItems(first);
      var j := Expand(last);
      js := less + [j];
      SpellItemsSnoc(less, j);
      AllDeriveSnoc(less, j);
    }
  }

  lemma {:induction false} ExpandMembers(members: seq<Member>) returns (fields: seq<Field>)
    requires AllSoundMembers(members)
    ensures |fields| == |members| && AllFieldsDerive(fields) && SpellFields(fields) == RenderMembers(members)
    decreases members, 0
  {
    if |members| == 0 {
      fields := [];
    } else {
      var n := |members| - 1;
      var first, last := members[..n], members[n];
      assert AllSoundMembers(first) && SoundMember(last);
      var less := ExpandMembers(first);
      var j := Expand(last.value);
      var f := ExpandName(last.key, j);
      fields := less + [f];
      SpellFieldsSnoc(less, f);
      AllFieldsDeriveSnoc(less, f);
    }
  }

  lemma SoundIsJson(t: Tree)
    requires Sound(t)
    ensures IsJson(Render(t))
  {
    var j := Expand(t);
  }

  /** What a caller can check of its own calls: values are JSON texts and keys are strings, with
      any whitespace around them. */
  ghost predicate SoundCalls(calls: seq<Call>)
  {
    forall i :: 0 <= i < |calls| ==> SoundCall(calls[i])
  }

  ghost predicate SoundCall(call: Call)
  {
    (call.Value? ==> IsJson(call.text)) && (call.Key? ==> IsName(call.key))
  }

  lemma SoundCallsConcat(a: seq<Call>, b: seq<Call>)
    ensures SoundCalls(a + b) <==> SoundCalls(a) && SoundCalls(b)
  {
    if SoundCalls(a + b) {
      forall i | 0 <= i < |a| ensures SoundCall(a[i]) { assert (a + b)[i] == a[i]; }
      forall i | 0 <= i < |b| ensures SoundCall(b[i]) { assert (a + b)[|a| + i] == b[i]; }
    }
  }

  lemma {:induction false} SoundIff(t: Tree)
    ensures Sound(t) <==> SoundCalls(Calls(t))
    decreases t, 1
  {
    match t
    case Written(text) =>
      assert [Value(text)][0] == Value(text);
    case Array(items) =>
      ItemsSoundIff(items);
      SoundCallsConcat([StartArray], ItemCalls(items));
      SoundCallsConcat([StartArray] + ItemCalls(items), [EndArray]);
    case Object(members) =>
      MembersSoundIff(members);
      SoundCallsConcat([StartObject], MemberCalls(members));
      SoundCallsConcat([StartObject] + MemberCalls(members), [EndObject]);
  }

  lemma {:induction false} ItemsSoundIff(items: seq<Tree>)
    ensures (forall i :: 0 <= i < |items| ==> Sound(items[i])) <==> SoundCalls(ItemCalls(items))
    decreases items, 0
  {
    if |items| > 0 {
      var n := |items| - 1;
      ItemsSoundIff(items[..n]);
      SoundIff(items[n]);
      SoundCallsConcat(ItemCalls(items[..n]), Calls(items[n]));
      assert (forall i :: 0 <= i < |items| ==> Sound(items[i]))
        <==> (forall i :: 0 <= i < n ==> Sound(items[..n][i])) && Sound(items[n]);
    }
  }

  lemma {:induction false} MembersSoundIff(members: seq<Member>)
    ensures AllSoundMembers(members) <==> SoundCalls(MemberCalls(members))
    decreases members, 0
  {
    if |members| > 0 {
      var n := |members| - 1;
      var m := members[n];
      MembersSoundIff(members[..n]);
      SoundIff(m.value);
      SoundCallsConcat(MemberCalls(members[..n]), [Key(m.key)]);
      SoundCallsConcat(MemberCalls(members[..n]) + [Key(m.key)], Calls(m.value));
      assert SoundCalls([Key(m.key)]) <==> IsName(m.key) by { assert [Key(m.key)][0] == Key(m.key); }
      AllSoundMembersSnoc(members[..n], m);
      assert members[..n] + [m] == members;
    }
  }

  lemma AllSoundMembersSnoc(members: seq<Member>, m: Member)
    ensures AllSoundMembers(members + [m]) <==> AllSoundMembers(members) && SoundMember(m)
  {
    var more := members + [m];
    if AllSoundMembers(more) {
      forall i | 0 <= i < |members| ensures SoundMember(members[i]) { assert more[i] == members[i]; }
      assert more[|members|] == m;
    }
  }

  /** A literal is not empty, and one of a single character is a digit. */
  lemma LiteralShort(t: Text)
    requires IsLiteral(t)
    ensures |t| > 0 && (|t| == 1 ==> IsDigit(t[0]))
  {
    if IsNumber(t) {
      var sign, whole, fraction, exponent :|
        && t == sign + whole + fraction + exponent
        && (sign == "" || sign == "-")
        && IsDigits(whole) && (whole[0] == '0' ==> |whole| == 1)
        && (fraction == "" || (fraction[0] == '.' && IsDigits(fraction[1..])))
        && IsExponent(exponent);
      assert |t| == |sign| + |whole| + |fraction| + |exponent|;
      assert t[|sign|] == whole[0];
    }
  }

  lemma JsonNotEmpty(text: Text)
    requires IsJson(text)
    ensures text != ""
  {
    var j :| Derives(j) && Spell(j) == text;
    if j.Leaf? {
      LiteralShort(j.literal);
    }
    assert |text| >= |Core(j)| > 0;
  }

  /** The only JSON texts of one character are the digits. */
  lemma OneCharacterIff(c: char)
    ensures IsJson([c]) <==> IsDigit(c)
  {
    if IsJson([c]) {
      var j :| Derives(j) && Spell(j) == [c];
      assert j.Leaf? by {
        assert j.List? ==> |Spell(j)| >= 2;
        assert j.Record? ==> |Spell(j)| >= 2;
      }
      LiteralShort(j.literal);
      assert |[c]| == |j.before| + |j.literal| + |j.after|;
      assert j.literal == [c];
    }
    if IsDigit(c) {
      var j := Leaf("", [c], "");
      assert [c] == "" + [c] + "" + "";
      assert IsNumber([c]);
      assert Spell(j) == [c];
    }
  }

  // ----- writes that failed partway -----

  /** Every call is sound, but for values of which only `part` was written. */
  ghost predicate SoundBut(calls: seq<Call>, part: Text)
  {
    forall i :: 0 <= i < |calls| ==> SoundCall(calls[i]) || calls[i] == Value(part)
  }

  /** The calls were accepted as one document and `text` is what they wrote. */
  ghost predicate Writes(calls: seq<Call>, text: Text)
  {
    exists t :: Run(Blank, calls) == Some(Doc([], Some(t))) && Render(t) == text
  }

  lemma SoundWrites(calls: seq<Call>, text: Text)
    requires SoundCalls(calls) && Writes(calls, text)
    ensures IsJson(text)
  {
    var t :| Run(Blank, calls) == Some(Doc([], Some(t))) && Render(t) == text;
    CompleteIff(calls, t);
    SoundIff(t);
    SoundIsJson(t);
  }

  /** Writes that stop after `part` are harmless, wherever they happen and however many
      there are, exactly when `part` is itself JSON. */
  lemma PartsHarmlessIff(part: Text)
    ensures (forall calls, text :: SoundBut(calls, part) && Writes(calls, text) ==> IsJson(text)) <==> IsJson(part)
  {
    if IsJson(part) {
      forall calls, text | SoundBut(calls, part) && Writes(calls, text) ensures IsJson(text) {
        assert SoundCalls(calls);
        SoundWrites(calls, text);
      }
    } else {
      var calls := [Value(part)];
      assert calls == Calls(Written(part));
      CompleteIff(calls, Written(part));
      assert Render(Written(part)) == part;
      assert SoundBut(calls, part) && Writes(calls, part);
    }
  }

  /** For one run the condition is not necessary: a value that failed before its first byte,
      alone in its array, leaves the text of an empty array. */
  lemma UnsoundMayStillBeJson()
    ensures var calls := [StartArray, Value(""), EndArray];
            Writes(calls, "[]") && IsJson("[]") && !SoundCalls(calls)
  {
    var calls, items := [StartArray, Value(""), EndArray], [Written("")];
    EmptyItem(items);
    assert Calls(Array(items)) == calls;
    CompleteIff(calls, Array(items));
    assert Render(Array(items)) == "[]";
    var j := PlainList([]);
    assert Spell(j) == "[]";
    assert !SoundCall(calls[1]) by {
      if IsJson("") { JsonNotEmpty(""); }
    }
  }

  lemma EmptyItem(items: seq<Tree>)
    requires items == [Written("")]
    ensures ItemCalls(items) == [Value("")] && RenderItems(items) == ""
  {
    assert items[..0] == [];
    assert Calls(items[0]) == [Value("")];
  }
}
