/** The streaming JSON writer: a stack of open containers that emits commas and colons as it
    goes and hands its bytes over at arbitrary moments. */
module JsonWriter {
  import opened Wrappers
  import opened JsonDocument

  datatype Failure =
    | Closed | HasRoot | NeedsKey | NoObject | KeyWithoutValue | BadUtf8 | NotOpen | Incomplete | Unencodable | NoMemory

  datatype Kind = ArrayKind | ObjectKind
  datatype Frame = Frame(kind: Kind, first: bool, needsValue: bool)

  const FLUSH_THRESHOLD: nat := 64 * 1024

  /** The frame of an open container; with a child under way its value counts as given. */
  function FrameOf(open: Open, child: bool): Frame
  {
    match open
    case OpenArray(items) => Frame(ArrayKind, items == [] && !child, false)
    case OpenObject(members, key) => Frame(ObjectKind, members == [] && key.None?, key.Some? && !child)
  }

  /** The frames of a stack; `child` says whether the innermost has a value under way. */
  function FramesOf(stack: seq<Open>, child: bool): (frames: seq<Frame>)
    ensures |frames| == |stack|
  {
    seq(|stack|, i requires 0 <= i < |stack| => FrameOf(stack[i], child || i < |stack| - 1))
  }

  lemma FrameLast(stack: seq<Open>)
    requires |stack| > 0
    ensures FramesOf(stack, false)[|stack| - 1] == FrameOf(stack[|stack| - 1], false)
  {
  }

  /** A value under way changes the innermost frame alone. */
  lemma FramesUnderWay(stack: seq<Open>)
    requires |stack| > 0
    ensures FramesOf(stack, true) == FramesOf(stack, false)[|stack| - 1 := FrameOf(stack[|stack| - 1], true)]
  {
  }

  lemma FramesAfterValue(doc: Doc, v: Tree)
    requires Nested(doc) && Expects(doc)
    ensures FramesOf(Added(doc, v).stack, false) == FramesOf(doc.stack, true)
  {
  }

  lemma FramesAfterPush(doc: Doc, open: Open)
    ensures FramesOf(Pushed(doc, open).stack, false) == FramesOf(doc.stack, true) + [FrameOf(open, false)]
  {
  }

  function StartOf(kind: Kind): Call { if kind.ArrayKind? then StartArray else StartObject }

  function BracketOf(kind: Kind): Text { if kind.ArrayKind? then "[" else "{" }

  /** A container may start where a value may stand. */
  lemma StartsIff(doc: Doc, kind: Kind)
    requires Nested(doc)
    ensures Accept(doc, StartOf(kind)).Some? <==> Expects(doc)
  {
  }

  function EndOf(kind: Kind): Call { if kind.ArrayKind? then EndArray else EndObject }

  /** A container may end when its frame is of this kind and owes no value. */
  lemma EndsIff(doc: Doc, kind: Kind)
    requires Nested(doc)
    ensures Accept(doc, EndOf(kind)).Some? <==>
              |doc.stack| > 0 && FrameOf(doc.stack[|doc.stack| - 1], false).kind == kind
              && !FrameOf(doc.stack[|doc.stack| - 1], false).needsValue
    ensures Emitted(doc, EndOf(kind)) == if kind.ArrayKind? then "]" else "}"
  {
  }

  lemma FramesAfterEnd(doc: Doc, kind: Kind)
    requires Nested(doc) && |doc.stack| > 0 && Accept(doc, EndOf(kind)).Some?
    ensures FramesOf(Accept(doc, EndOf(kind)).value.stack, false) == FramesOf(doc.stack, false)[..|doc.stack| - 1]
  {
    var top := doc.stack[|doc.stack| - 1];
    FramesAfterValue(Popped(doc), if top.OpenArray? then Array(top.items) else Object(top.members));
  }

  lemma FramesAfterKey(doc: Doc, key: Text)
    requires Nested(doc) && Accept(doc, Key(key)).Some?
    ensures FramesOf(Accept(doc, Key(key)).value.stack, false)
         == FramesOf(doc.stack, false)[|doc.stack| - 1 := Frame(ObjectKind, false, true)]
  {
  }

  // ----- why a call is refused -----

  function ValueFault(finished: bool, doc: Doc): Failure
  {
    if finished then Closed else if doc.stack == [] then HasRoot else NeedsKey
  }

  /** The innermost open container is of this kind. */
  predicate Inmost(doc: Doc, kind: Kind)
  {
    |doc.stack| > 0 && (doc.stack[|doc.stack| - 1].OpenArray? <==> kind.ArrayKind?)
  }

  /** A key still waits for its value. */
  predicate KeyWaits(doc: Doc)
  {
    Inmost(doc, ObjectKind) && doc.stack[|doc.stack| - 1].key.Some?
  }

  function KeyFault(finished: bool, doc: Doc): Failure
  {
    if finished || !Inmost(doc, ObjectKind) then NoObject
    else if KeyWaits(doc) then KeyWithoutValue else BadUtf8
  }

  function EndFault(finished: bool, doc: Doc, kind: Kind): Failure
  {
    if finished || !Inmost(doc, kind) then NotOpen else KeyWithoutValue
  }

  /** The frame once a value is under way in it. */
  function Taken(frame: Frame): Frame
  {
    if frame.kind.ArrayKind? then frame.(first := false) else frame.(needsValue := false)
  }

  /** A value may stand in an array, and in an object whose frame owes one; it needs a comma
      if it is not the first of its array. */
  lemma RoomFor(doc: Doc)
    requires |doc.stack| > 0
    ensures var frame := FrameOf(doc.stack[|doc.stack| - 1], false);
            && Expects(doc) == (frame.kind.ArrayKind? || frame.needsValue)
            && LeadOf(doc) == (if frame.kind.ArrayKind? && !frame.first then "," else "")
            && FramesOf(doc.stack, true) == FramesOf(doc.stack, false)[|doc.stack| - 1 := Taken(frame)]
  {
    FramesUnderWay(doc.stack);
  }

  /** A comma goes before a value that is not the first of its array. */
  function Comma(doc: Doc): Text
  {
    if Inmost(doc, ArrayKind) && doc.stack[|doc.stack| - 1].items != [] then "," else ""
  }

  /** A value is written as it is, and a container as its bracket, after the comma it needs. */
  lemma ValueIs(doc: Doc, text: Text)
    requires Nested(doc) && Expects(doc)
    ensures Emitted(doc, Value(text)) == Comma(doc) + text
    ensures Emitted(doc, StartArray) == Comma(doc) + "[" && Emitted(doc, StartObject) == Comma(doc) + "{"
  {
  }

  /** A key may stand in an object whose frame owes no value. */
  lemma KeyIff(doc: Doc, key: Text)
    requires Nested(doc)
    ensures Accept(doc, Key(key)).Some? <==>
              |doc.stack| > 0 && FrameOf(doc.stack[|doc.stack| - 1], false).kind == ObjectKind
              && !FrameOf(doc.stack[|doc.stack| - 1], false).needsValue
    ensures Accept(doc, Key(key)).Some? ==>
              Emitted(doc, Key(key)) == (if FrameOf(doc.stack[|doc.stack| - 1], false).first then "" else ",") + key + ":"
  {
  }

  class Writer {
    var frames: seq<Frame>
    var builder: Text
    var rootWritten: bool
    var finished: bool
    /** What has been handed over. */
    var out: Text
    ghost var doc: Doc
    ghost var calls: seq<Call>

    /** The bytes handed over and those still held are the text of the document so far. */
    ghost predicate Valid()
      reads this
    {
      && Nested(doc) && calls == CallsOf(doc)
      && (!finished ==>
            && frames == FramesOf(doc.stack, false)
            && (rootWritten <==> doc != Blank)
            && out + builder == TextOf(doc))
    }

    constructor ()
      ensures Valid() && !finished && doc == Blank && calls == [] && out == ""
      ensures frames == [] && builder == "" && !rootWritten
    {
      frames, builder, rootWritten, finished, out := [], "", false, false, "";
      doc, calls := Blank, [];
    }

    method Drain()
      modifies this`out, this`builder
      ensures out == old(out) + old(builder) && builder == ""
    {
      out := out + builder;
      builder := "";
    }

    method DrainAtThreshold()
      modifies this`out, this`builder
      ensures out + builder == old(out) + old(builder)
      ensures |builder| < FLUSH_THRESHOLD
    {
      if |builder| >= FLUSH_THRESHOLD {
        Drain();
      }
    }

    /** A value may be appended to what was held before the comma it needed. */
    ghost predicate Prepared(held: Text)
      reads this
    {
      && !finished && rootWritten && Nested(doc) && calls == CallsOf(doc) && Expects(doc)
      && frames == FramesOf(doc.stack, true)
      && out + held == TextOf(doc) && builder == held + LeadOf(doc)
    }

    /** Makes room for a value: refused where none may stand, else the comma it needs. */
    method PrepareValue() returns (r: Result<(), Failure>)
      requires Valid()
      modifies this`frames, this`builder, this`rootWritten
      ensures r.Ok? <==> !finished && Expects(doc)
      ensures r.Err? ==> r.error == ValueFault(finished, doc) && frames == old(frames) && builder == old(builder) && rootWritten == old(rootWritten)
      ensures r.Ok? ==> Prepared(old(builder))
    {
      if finished {
        return Err(Closed);
      }
      if |frames| == 0 {
        if rootWritten {
          return Err(HasRoot);
        }
        rootWritten := true;
        return Ok(());
      }
      var n := |frames| - 1;
      var frame := frames[n];
      FrameLast(doc.stack);
      RoomFor(doc);
      if frame.kind.ArrayKind? {
        if !frame.first {
          builder := builder + ",";
        }
        frames := frames[n := frame.(first := false)];
      } else {
        if !frame.needsValue {
          return Err(NeedsKey);
        }
        frames := frames[n := frame.(needsValue := false)];
      }
      return Ok(());
    }

    /** One accepted call: the document moves on and its bytes follow those before. */
    ghost predicate Took(call: Call, before: Doc, earlier: seq<Call>, text: Text)
      requires Nested(before)
      reads this
    {
      && Accept(before, call) == Some(doc) && calls == earlier + [call]
      && out + builder == text + Emitted(before, call)
    }

    method BeginArray() returns (r: Result<(), Failure>)
      requires Valid()
      modifies this
      ensures Valid() && finished == old(finished)
      ensures r.Ok? <==> !finished && Accept(old(doc), StartArray).Some?
      ensures r.Ok? ==> Took(StartArray, old(doc), old(calls), old(out) + old(builder))
      ensures r.Err? ==> r.error == ValueFault(finished, doc)
      ensures r.Err? ==> Unchanged(old(doc), old(calls), old(frames), old(rootWritten), old(builder), old(out))
    {
      r := PrepareValue();
      if r.Ok? {
        PushArray(old(builder));
      }
    }

    method PushArray(ghost held: Text)
      requires Prepared(held)
      modifies this`frames, this`out, this`builder, this`doc, this`calls
      ensures Valid() && Took(StartArray, old(doc), old(calls), old(out) + held)
    {
      Assoc(held, LeadOf(doc), "[");
      builder := builder + "[";
      frames := frames + [Frame(ArrayKind, true, false)];
      FramesAfterPush(doc, OpenArray([]));
      Finish(StartArray, held);
    }

    method BeginObject() returns (r: Result<(), Failure>)
      requires Valid()
      modifies this
      ensures Valid() && finished == old(finished)
      ensures r.Ok? <==> !finished && Accept(old(doc), StartObject).Some?
      ensures r.Ok? ==> Took(StartObject, old(doc), old(calls), old(out) + old(builder))
      ensures r.Err? ==> r.error == ValueFault(finished, doc)
      ensures r.Err? ==> Unchanged(old(doc), old(calls), old(frames), old(rootWritten), old(builder), old(out))
    {
      r := PrepareValue();
      if r.Ok? {
        PushObject(old(builder));
      }
    }

    method PushObject(ghost held: Text)
      requires Prepared(held)
      modifies this`frames, this`out, this`builder, this`doc, this`calls
      ensures Valid() && Took(StartObject, old(doc), old(calls), old(out) + held)
    {
      Assoc(held, LeadOf(doc), "{");
      builder := builder + "{";
      frames := frames + [Frame(ObjectKind, true, false)];
      FramesAfterPush(doc, OpenObject([], None));
      Finish(StartObject, held);
    }

    method Write(text: Text) returns (r: Result<(), Failure>)
      requires Valid()
      modifies this
      ensures Valid() && finished == old(finished)
      ensures r.Ok? <==> !finished && Accept(old(doc), Value(text)).Some?
      ensures r.Ok? ==> Took(Value(text), old(doc), old(calls), old(out) + old(builder))
      ensures r.Err? ==> r.error == ValueFault(finished, doc)
      ensures r.Err? ==> Unchanged(old(doc), old(calls), old(frames), old(rootWritten), old(builder), old(out))
    {
      r := PrepareValue();
      if r.Ok? {
        PushValue(text, old(builder));
      }
    }

    method PushValue(text: Text, ghost held: Text)
      requires Prepared(held)
      modifies this`out, this`builder, this`doc, this`calls
      ensures Valid() && Took(Value(text), old(doc), old(calls), old(out) + held)
    {
      AppendValue(text, held);
      DrainAtThreshold();
    }

    method AppendValue(text: Text, ghost held: Text)
      requires Prepared(held)
      modifies this`builder, this`doc, this`calls
      ensures Valid() && Took(Value(text), old(doc), old(calls), old(out) + held)
    {
      Assoc(held, LeadOf(doc), text);
      Assoc(out, held, Emitted(doc, Value(text)));
      builder := builder + text;
      FramesAfterValue(doc, Written(text));
      Advance(Value(text));
    }

    /** `utf8` is whether the key is well-formed UTF-8; `key` is its quoted form. */
    method WriteKey(key: Text, utf8: bool) returns (r: Result<(), Failure>)
      requires Valid()
      modifies this
      ensures Valid() && finished == old(finished)
      ensures r.Ok? <==> !finished && utf8 && Accept(old(doc), Key(key)).Some?
      ensures r.Ok? ==> Took(Key(key), old(doc), old(calls), old(out) + old(builder))
      ensures r.Err? ==> r.error == KeyFault(finished, doc)
      ensures r.Err? ==> Unchanged(old(doc), old(calls), old(frames), old(rootWritten), old(builder), old(out))
    {
      KeyIff(doc, key);
      var n := |frames| - 1;
      assert finished || n < 0 || frames[n] == FrameOf(doc.stack[n], false);
      if finished || n < 0 || frames[n].kind.ArrayKind? {
        return Err(NoObject);
      }
      if frames[n].needsValue {
        return Err(KeyWithoutValue);
      }
      if !utf8 {
        return Err(BadUtf8);
      }
      AppendKey(key);
      return Ok(());
    }

    method AppendKey(key: Text)
      requires Valid() && !finished && Accept(doc, Key(key)).Some?
      modifies this
      ensures Valid() && finished == old(finished)
      ensures Took(Key(key), old(doc), old(calls), old(out) + old(builder))
    {
      KeyIff(doc, key);
      FramesAfterKey(doc, key);
      var n := |frames| - 1;
      assert frames[n] == FrameOf(doc.stack[n], false);
      var comma := if frames[n].first then "" else ",";
      frames := frames[n := Frame(ObjectKind, false, true)];
      Assoc(builder, comma + key, ":");
      Assoc(builder, comma, key);
      builder := builder + comma + key + ":";
      Finish(Key(key), old(builder));
    }

    method EndContainer(expected: Kind) returns (r: Result<(), Failure>)
      requires Valid()
      modifies this
      ensures Valid() && finished == old(finished)
      ensures r.Ok? <==> !finished && Accept(old(doc), EndOf(expected)).Some?
      ensures r.Ok? ==> Took(EndOf(expected), old(doc), old(calls), old(out) + old(builder))
      ensures r.Err? ==> r.error == EndFault(finished, doc, expected)
      ensures r.Err? ==> Unchanged(old(doc), old(calls), old(frames), old(rootWritten), old(builder), old(out))
    {
      EndsIff(doc, expected);
      var n := |frames| - 1;
      if !finished && n >= 0 {
        FrameLast(doc.stack);
      }
      if finished || n < 0 || frames[n].kind != expected {
        return Err(NotOpen);
      }
      if expected.ObjectKind? && frames[n].needsValue {
        return Err(KeyWithoutValue);
      }
      PopFrame(expected);
      return Ok(());
    }

    method PopFrame(expected: Kind)
      requires Valid() && !finished && |frames| > 0 && Accept(doc, EndOf(expected)).Some?
      modifies this
      ensures Valid() && finished == old(finished)
      ensures Took(EndOf(expected), old(doc), old(calls), old(out) + old(builder))
    {
      EndsIff(doc, expected);
      FramesAfterEnd(doc, expected);
      frames := frames[..|frames| - 1];
      builder := builder + if expected.ArrayKind? then "]" else "}";
      Finish(EndOf(expected), old(builder));
    }

    /** The end of every accepted call: frames and bytes are in place, the document moves on,
        and the bytes are drained past the threshold. */
    method Finish(ghost call: Call, ghost held: Text)
      requires Nested(doc) && calls == CallsOf(doc) && Accept(doc, call).Some? && !finished && rootWritten
      requires frames == FramesOf(Accept(doc, call).value.stack, false)
      requires out + held == TextOf(doc) && builder == held + Emitted(doc, call)
      modifies this`out, this`builder, this`doc, this`calls
      ensures Valid() && Took(call, old(doc), old(calls), old(out) + held)
    {
      Assoc(out, held, Emitted(doc, call));
      Advance(call);
      DrainAtThreshold();
    }

    /** Moves the document on by an accepted call. */
    ghost method Advance(call: Call)
      requires Nested(doc) && calls == CallsOf(doc) && Accept(doc, call).Some?
      modifies this`doc, this`calls
      ensures Some(doc) == Accept(old(doc), call) && doc != Blank
      ensures Nested(doc) && calls == CallsOf(doc) == old(calls) + [call]
      ensures TextOf(doc) == TextOf(old(doc)) + Emitted(old(doc), call)
    {
      AcceptText(doc, call);
      AcceptCalls(doc, call);
      doc, calls := Accept(doc, call).value, calls + [call];
    }

    ghost predicate Unchanged(doc: Doc, calls: seq<Call>, frames: seq<Frame>, rootWritten: bool, builder: Text, out: Text)
      reads this
    {
      && this.doc == doc && this.calls == calls && this.frames == frames
      && this.rootWritten == rootWritten && this.builder == builder && this.out == out
    }

    method Flush() returns (r: Result<(), Failure>)
      requires Valid()
      modifies this`out, this`builder
      ensures Valid()
      ensures r.Ok? <==> !finished
      ensures out + builder == old(out) + old(builder) && (r.Ok? ==> builder == "")
    {
      if finished {
        return Err(Closed);
      }
      Drain();
      return Ok(());
    }

    /** A close that succeeds has handed over the text of one complete document, the one whose
        calls were accepted, whatever was drained on the way. */
    method Close() returns (r: Result<(), Failure>)
      requires Valid()
      modifies this
      ensures Valid() && finished && doc == old(doc) && calls == old(calls)
      ensures r.Ok? <==> !old(finished) && doc.root.Some?
      ensures r.Err? ==> out == old(out) && r.error == if old(finished) then Closed else Incomplete
      ensures r.Ok? ==>
                && calls == Calls(doc.root.value) && out == Render(doc.root.value)
                && (SoundCalls(calls) ==> IsJson(out))
    {
      if finished {
        return Err(Closed);
      }
      finished := true;
      var complete := rootWritten && frames == [];
      if !complete {
        builder, frames := "", [];
        return Err(Incomplete);
      }
      Drain();
      frames := [];
      SoundIff(doc.root.value);
      if SoundCalls(calls) {
        SoundIsJson(doc.root.value);
      }
      return Ok(());
    }

    /** A write that is given room and then fails, having appended only part of its value:
        nothing is taken back, so the document goes on as if that part were a value. */
    method WriteFails(part: Text) returns (r: Result<(), Failure>)
      requires Valid()
      modifies this
      ensures Valid() && finished == old(finished) && r.Err?
      ensures r.error == Unencodable <==> !finished && Accept(old(doc), Value(part)).Some?
      ensures r.error == Unencodable ==> Took(Value(part), old(doc), old(calls), old(out) + old(builder))
      ensures r.error != Unencodable ==> Unchanged(old(doc), old(calls), old(frames), old(rootWritten), old(builder), old(out))
    {
      r := PrepareValue();
      if r.Ok? {
        AppendValue(part, old(builder));
        r := Err(Unencodable);
      }
    }

    /** A start that is given room and then finds no memory for its frame: the bracket has
        been appended and nothing is taken back, so the document goes on as if the bracket
        were a value. */
    method BeginFails(kind: Kind) returns (r: Result<(), Failure>)
      requires Valid()
      modifies this
      ensures Valid() && finished == old(finished) && r.Err?
      ensures r.error == NoMemory <==> !finished && Accept(old(doc), StartOf(kind)).Some?
      ensures r.error == NoMemory ==> Took(Value(BracketOf(kind)), old(doc), old(calls), old(out) + old(builder))
      ensures r.error != NoMemory ==> Unchanged(old(doc), old(calls), old(frames), old(rootWritten), old(builder), old(out))
    {
      StartsIff(doc, kind);
      r := PrepareValue();
      if r.Ok? {
        AppendValue(BracketOf(kind), old(builder));
        r := Err(NoMemory);
      }
    }
  }

  /** A root value that failed partway: the close still succeeds and hands over exactly the
      part, which is JSON only if the part is; a value that failed before its first byte
      leaves nothing, which is no JSON text. */
  method FailedRootStillCloses(part: Text) returns (w: Writer, r: Result<(), Failure>)
    ensures fresh(w) && r.Ok? && w.out == part && (IsJson(w.out) <==> IsJson(part))
    ensures part == "" ==> !IsJson(w.out)
  {
    w := new Writer();
    var _ := w.WriteFails(part);
    assert w.doc == Doc([], Some(Written(part)));
    r := w.Close();
    if IsJson(w.out) {
      JsonNotEmpty(w.out);
    }
  }

  /** A root container whose start found no memory: the close still succeeds, over a text
      that is the bracket alone and no JSON. */
  method FailedStartStillCloses(kind: Kind) returns (w: Writer, r: Result<(), Failure>)
    ensures fresh(w) && r.Ok? && w.out == BracketOf(kind) && !IsJson(w.out)
  {
    w := new Writer();
    var _ := w.BeginFails(kind);
    assert w.doc == Doc([], Some(Written(BracketOf(kind))));
    r := w.Close();
    OneCharacterIff('[');
    OneCharacterIff('{');
  }
}
