/**
 * The chat view of a session's conversation history
 * (`GET /api/sessions/{id}/conversation`): every dictionary item whose role is
 * `"user"` or `"assistant"` becomes one human or AI message whose content is
 * the item's content reduced to text, numbered by the messages before it.
 *
 * Python's `str()` of a non-string value is the parameter `render`: its exact
 * formatting is not part of this model.
 */
module Conversation {
  import opened Optional
  import opened PyText
  import opened Json

  datatype Kind = Human | Ai

  datatype Message = Message(kind: Kind, content: Json, id: string)

  function IdPrefix(k: Kind): string {
    match k
    case Human => "user-"
    case Ai => "ai-"
  }

  /** The message kind of a role, for the two roles that produce a message. */
  function RoleKind(role: Json): (r: Option<Kind>)
    ensures r == Some(Human) <==> role == JStr("user")
    ensures r == Some(Ai) <==> role == JStr("assistant")
  {
    if role == JStr("user") then Some(Human)
    else if role == JStr("assistant") then Some(Ai)
    else None
  }

  // ---------------------------------------------------------------------------
  // content reduced to text
  // ---------------------------------------------------------------------------

  /** A part that is a dictionary contributes text when its type is `output_text` or it has a `text` key. */
  predicate HasText(part: map<string, Json>) {
    Get(part, "type", JNull) == JStr("output_text") || "text" in part
  }

  /**
   * The values a list of content parts contributes to the joined text: a
   * dictionary part its `text` (`""` when absent), a non-dictionary part its
   * `str()`; dictionary parts without text contribute nothing.
   */
  function PartTexts(parts: seq<Json>, render: Json -> string): (r: seq<Json>)
    ensures |r| <= |parts|
  {
    if parts == [] then []
    else
      var p := parts[0];
      var rest := PartTexts(parts[1..], render);
      match p
      case JObj(f) => if HasText(f) then [Get(f, "text", JStr(""))] + rest else rest
      case JStr(s) => [p] + rest
      case _ => [JStr(render(p))] + rest
  }

  /** What one part contributes: a text dictionary its text, a textless one nothing, a string itself, anything else its `str()`. */
  lemma PartTextOne(p: Json, render: Json -> string)
    ensures p.JObj? && HasText(p.fields) ==> PartTexts([p], render) == [Get(p.fields, "text", JStr(""))]
    ensures p.JObj? && !HasText(p.fields) ==> PartTexts([p], render) == []
    ensures p.JStr? ==> PartTexts([p], render) == [p]
    ensures !p.JObj? && !p.JStr? ==> PartTexts([p], render) == [JStr(render(p))]
  {
    assert [p][1..] == [];
  }

  /** The contributions of a list are those of its parts, in order. */
  lemma {:induction false} PartTextsAppend(a: seq<Json>, b: seq<Json>, render: Json -> string)
    ensures PartTexts(a + b, render) == PartTexts(a, render) + PartTexts(b, render)
  {
    if a == [] {
      assert a + b == b;
    } else {
      var ab := a + b;
      assert ab[0] == a[0] && ab[1..] == a[1..] + b;
      PartTextsAppend(a[1..], b, render);
    }
  }

  /** A list without dictionaries contributes one value per part; a list of textless dictionaries contributes nothing. */
  lemma {:induction false} PartTextsUniform(parts: seq<Json>, render: Json -> string)
    ensures (forall i :: 0 <= i < |parts| ==> !parts[i].JObj?) ==> |PartTexts(parts, render)| == |parts|
    ensures (forall i :: 0 <= i < |parts| ==> parts[i].JObj? && !HasText(parts[i].fields)) ==> PartTexts(parts, render) == []
  {
    if parts != [] {
      PartTextsUniform(parts[1..], render);
      assert forall i :: 0 <= i < |parts[1..]| ==> parts[1..][i] == parts[i + 1];
    }
  }

  predicate AllStrings(vs: seq<Json>) {
    forall i :: 0 <= i < |vs| ==> vs[i].JStr?
  }

  lemma AllStringsCons(v: Json, rest: seq<Json>)
    ensures AllStrings([v] + rest) == (v.JStr? && AllStrings(rest))
  {
    var vs := [v] + rest;
    assert vs[0] == v;
    assert forall i :: 0 <= i < |rest| ==> vs[i + 1] == rest[i];
  }

  function Texts(vs: seq<Json>): (r: seq<string>)
    requires AllStrings(vs)
    ensures |r| == |vs| && forall i :: 0 <= i < |vs| ==> r[i] == vs[i].s
  {
    if vs == [] then [] else [vs[0].s] + Texts(vs[1..])
  }

  /**
   * An item's content as the chat view shows it; `None` is the `TypeError`
   * that `"\n".join` raises when a dictionary part's text is not a string.
   */
  function ContentText(content: Json, render: Json -> string): (r: Option<Json>)
    ensures content.JStr? ==> r == Some(content)
    ensures !content.JList? ==> r.Some?
    ensures content.JList? ==> (r.Some? <==> AllStrings(PartTexts(content.items, render)))
    ensures content.JList? && r.Some? ==> r.value.JStr?
    ensures content.JObj? && !HasText(content.fields) ==> r == Some(JStr(render(content)))
  {
    match content
    case JList(parts) =>
      var vs := PartTexts(parts, render);
      if AllStrings(vs) then Some(JStr(Join(Texts(vs), '\n'))) else None
    case JObj(f) =>
      if Get(f, "type", JNull) == JStr("output_text") then Some(Get(f, "text", JStr("")))
      else if "text" in f then Some(Get(f, "text", JStr("")))
      else Some(JStr(render(content)))
    case JStr(_) => Some(content)
    case _ => Some(JStr(render(content)))
  }

  /**
   * Parts that are strings without a newline come back one by one when the
   * joined content is split at newlines.
   */
  lemma ListContentLines(parts: seq<string>, render: Json -> string)
    requires |parts| >= 1
    requires forall k :: 0 <= k < |parts| ==> Lacks(parts[k], '\n')
    ensures ContentText(JList(AsJson(parts)), render) == Some(JStr(Join(parts, '\n')))
    ensures SplitMax(Join(parts, '\n'), '\n', -1) == parts
  {
    var js := AsJson(parts);
    StringPartsKept(js, render);
    assert Texts(js) == parts;
    SplitJoin(parts, '\n');
  }

  /** Strings as JSON string values. */
  function AsJson(parts: seq<string>): (r: seq<Json>)
    ensures |r| == |parts| && forall k :: 0 <= k < |parts| ==> r[k] == JStr(parts[k])
  {
    if parts == [] then [] else [JStr(parts[0])] + AsJson(parts[1..])
  }

  /** String parts are contributed unchanged. */
  lemma {:induction false} StringPartsKept(js: seq<Json>, render: Json -> string)
    requires AllStrings(js)
    ensures PartTexts(js, render) == js
  {
    if js != [] {
      StringPartsKept(js[1..], render);
      assert js == [js[0]] + js[1..];
    }
  }

  // ---------------------------------------------------------------------------
  // flattening
  // ---------------------------------------------------------------------------

  /** An item the chat view fails on: a dictionary whose list content yields a non-string text. */
  predicate Fails(item: Json) {
    item.JObj? && ContentText(Get(item.fields, "content", JStr("")), _ => "") == None
  }

  /** The content text of a dictionary item, when reducing it succeeds. */
  function ItemContent(fields: map<string, Json>, render: Json -> string): Option<Json> {
    ContentText(Get(fields, "content", JStr("")), render)
  }

  /** Reducing content fails independently of how `str()` renders values. */
  lemma FailureIgnoresRender(content: Json, render: Json -> string, other: Json -> string)
    ensures ContentText(content, render).None? == ContentText(content, other).None?
  {
    if content.JList? {
      PartTextsShape(content.items, render, other);
    }
  }

  lemma {:induction false} PartTextsShape(parts: seq<Json>, render: Json -> string, other: Json -> string)
    ensures AllStrings(PartTexts(parts, render)) == AllStrings(PartTexts(parts, other))
  {
    if parts != [] {
      PartTextsShape(parts[1..], render, other);
      var a := PartTexts(parts[1..], render);
      var b := PartTexts(parts[1..], other);
      match parts[0]
      case JObj(f) =>
        if HasText(f) {
          AllStringsCons(Get(f, "text", JStr("")), a);
          AllStringsCons(Get(f, "text", JStr("")), b);
        }
      case JStr(_) =>
        AllStringsCons(parts[0], a);
        AllStringsCons(parts[0], b);
      case _ =>
        AllStringsCons(JStr(render(parts[0])), a);
        AllStringsCons(JStr(other(parts[0])), b);
    }
  }

  /**
   * The reference view: the (kind, content) of every dictionary item whose
   * role is user or assistant, in order, ignoring failures and numbering.
   */
  function Kept(items: seq<Json>, render: Json -> string): seq<(Kind, Json)> {
    if items == [] then []
    else
      var rest := Kept(items[1..], render);
      var item := items[0];
      if !item.JObj? then rest
      else
        var content := ItemContent(item.fields, render);
        match RoleKind(Get(item.fields, "role", JStr("")))
        case Some(k) => [(k, if content.Some? then content.value else JNull)] + rest
        case None => rest
  }

  /** What one history item does to the view: nothing, a failure, or one message of a kind and content. */
  datatype Step = Pass | Failure | Emit(kind: Kind, content: Json)

  /**
   * One pass of the loop body: a non-dictionary item is passed over, a
   * dictionary whose content cannot be reduced raises, and otherwise an item
   * whose role is user or assistant emits its message.
   */
  function ItemStep(item: Json, render: Json -> string): Step {
    if !item.JObj? then Pass
    else
      match ItemContent(item.fields, render)
      case None => Failure
      case Some(c) =>
        match RoleKind(Get(item.fields, "role", JStr("")))
        case Some(k) => Emit(k, c)
        case None => Pass
  }

  /** An item's step fails exactly when the item fails. */
  lemma StepFails(item: Json, render: Json -> string)
    ensures ItemStep(item, render).Failure? <==> Fails(item)
  {
    if item.JObj? {
      FailureIgnoresRender(Get(item.fields, "content", JStr("")), render, _ => "");
    }
  }

  /** The step of each item, in order. */
  function Steps(items: seq<Json>, render: Json -> string): seq<Step> {
    seq(|items|, i requires 0 <= i < |items| => ItemStep(items[i], render))
  }

  lemma StepsCons(items: seq<Json>, render: Json -> string)
    requires items != []
    ensures Steps(items, render) == [ItemStep(items[0], render)] + Steps(items[1..], render)
  {
    assert Steps(items, render)[1..] == Steps(items[1..], render);
  }

  lemma StepsSnoc(items: seq<Json>, item: Json, render: Json -> string)
    ensures Steps(items + [item], render) == Steps(items, render) + [ItemStep(item, render)]
  {
    var all := items + [item];
    assert forall i :: 0 <= i < |items| ==> all[i] == items[i];
  }

  /**
   * The loop over the steps with `len(messages)` as the counter `emitted`: a
   * message for each emitting step, numbered from `emitted`; the whole call
   * fails at the first failing step.
   */
  function FlattenSteps(st: seq<Step>, emitted: nat): Option<seq<Message>> {
    if st == [] then Some([])
    else
      match st[0]
      case Failure => None
      case Pass => FlattenSteps(st[1..], emitted)
      case Emit(k, c) =>
        match FlattenSteps(st[1..], emitted + 1)
        case None => None
        case Some(rest) => Some([Message(k, c, IdPrefix(k) + IntToDecimal(emitted))] + rest)
  }

  /** The loop of `get_session_conversation` over history items, counting from `emitted`. */
  function FlattenFrom(items: seq<Json>, emitted: nat, render: Json -> string): Option<seq<Message>> {
    FlattenSteps(Steps(items, render), emitted)
  }

  predicate NoneFails(items: seq<Json>) {
    forall i :: 0 <= i < |items| ==> !Fails(items[i])
  }

  /** The (kind, content) of each emitting step, in order. */
  function Emits(st: seq<Step>): seq<(Kind, Json)> {
    if st == [] then []
    else if st[0].Emit? then [(st[0].kind, st[0].content)] + Emits(st[1..])
    else Emits(st[1..])
  }

  /** Folding the steps fails exactly when some step fails. */
  lemma {:induction false} StepsSucceed(st: seq<Step>, emitted: nat)
    ensures FlattenSteps(st, emitted).Some? <==> forall i :: 0 <= i < |st| ==> !st[i].Failure?
  {
    if st != [] {
      StepsSucceed(st[1..], if st[0].Emit? then emitted + 1 else emitted);
      assert forall i :: 1 <= i < |st| ==> st[i] == st[1..][i - 1];
    }
  }

  /** The view fails exactly when some item fails, whatever the numbering. */
  lemma FlattenSucceeds(items: seq<Json>, emitted: nat, render: Json -> string)
    ensures FlattenFrom(items, emitted, render).Some? <==> NoneFails(items)
  {
    StepsSucceed(Steps(items, render), emitted);
    forall i | 0 <= i < |items| ensures Steps(items, render)[i].Failure? <==> Fails(items[i]) {
      StepFails(items[i], render);
    }
  }

  /** The id of the message of kind `k` emitted after `n` others: `user-<n>` or `ai-<n>`. */
  function MessageId(k: Kind, n: nat): string {
    IdPrefix(k) + IntToDecimal(n)
  }

  /** The pairs `es` as messages labelled from `from`: the first gets `idOf(k, from)`, the next `idOf(k, from + 1)`, and so on. */
  function Numbered(es: seq<(Kind, Json)>, from: nat, idOf: (Kind, nat) -> string): seq<Message> {
    if es == [] then [] else [Message(es[0].0, es[0].1, idOf(es[0].0, from))] + Numbered(es[1..], from + 1, idOf)
  }

  /** There is one numbered message per pair. */
  lemma {:induction false} NumberedLength(es: seq<(Kind, Json)>, from: nat, idOf: (Kind, nat) -> string)
    ensures |Numbered(es, from, idOf)| == |es|
  {
    if es != [] {
      NumberedLength(es[1..], from + 1, idOf);
    }
  }

  /** The `i`-th numbered message carries the `i`-th pair and the id of `from + i`. */
  lemma {:induction false} NumberedAt(es: seq<(Kind, Json)>, from: nat, idOf: (Kind, nat) -> string, i: nat)
    requires i < |es|
    ensures i < |Numbered(es, from, idOf)| && Numbered(es, from, idOf)[i] == Message(es[i].0, es[i].1, idOf(es[i].0, from + i))
  {
    NumberedLength(es, from, idOf);
    if i > 0 {
      NumberedAt(es[1..], from + 1, idOf, i - 1);
      assert es[i] == es[1..][i - 1];
      assert from + i == (from + 1) + (i - 1);
    }
  }

  /** The folded steps are the emitted (kind, content) pairs, numbered from `emitted`. */
  lemma {:induction false} StepsMatchEmits(st: seq<Step>, emitted: nat)
    requires FlattenSteps(st, emitted).Some?
    ensures FlattenSteps(st, emitted).value == Numbered(Emits(st), emitted, MessageId)
  {
    if st != [] {
      match st[0]
      case Failure =>
      case Pass => StepsMatchEmits(st[1..], emitted);
      case Emit(k, c) =>
        StepsMatchEmits(st[1..], emitted + 1);
        var es := [(k, c)] + Emits(st[1..]);
        assert es[0] == (k, c) && es[1..] == Emits(st[1..]);
    }
  }

  /** Without failures the reference view is the list of emitted (kind, content) pairs. */
  lemma {:induction false} KeptIsEmits(items: seq<Json>, render: Json -> string)
    requires forall i :: 0 <= i < |Steps(items, render)| ==> !Steps(items, render)[i].Failure?
    ensures Kept(items, render) == Emits(Steps(items, render))
  {
    if items != [] {
      StepsCons(items, render);
      var st := Steps(items, render);
      assert st[0] == ItemStep(items[0], render) && st[1..] == Steps(items[1..], render);
      assert forall i :: 0 <= i < |st[1..]| ==> st[1..][i] == st[i + 1];
      KeptIsEmits(items[1..], render);
    }
  }

  /**
   * A successful view has one message per kept item, with that item's kind
   * and content, and the `i`-th message has id `user-(emitted + i)` or
   * `ai-(emitted + i)`: the number of messages emitted before it.
   */
  lemma FlattenMatchesKept(items: seq<Json>, emitted: nat, render: Json -> string)
    requires FlattenFrom(items, emitted, render).Some?
    ensures var ms := FlattenFrom(items, emitted, render).value;
      && |ms| == |Kept(items, render)|
      && forall i :: 0 <= i < |ms| ==>
        && ms[i].kind == Kept(items, render)[i].0
        && ms[i].content == Kept(items, render)[i].1
        && ms[i].id == IdPrefix(ms[i].kind) + IntToDecimal(emitted + i)
  {
    StepsSucceed(Steps(items, render), emitted);
    KeptIsEmits(items, render);
    StepsMatchEmits(Steps(items, render), emitted);
    var kept := Kept(items, render);
    NumberedLength(kept, emitted, MessageId);
    forall i | 0 <= i < |kept| ensures Numbered(kept, emitted, MessageId)[i] == Message(kept[i].0, kept[i].1, MessageId(kept[i].0, emitted + i)) {
      NumberedAt(kept, emitted, MessageId, i);
    }
  }

  /** The chat view of a whole history. */
  function Flatten(history: seq<Json>, render: Json -> string): (r: Option<seq<Message>>)
  {
    FlattenFrom(history, 0, render)
  }

  /** The `i`-th message carries id `user-i` or `ai-i`; so no two messages share an id. */
  lemma IdsDistinct(history: seq<Json>, render: Json -> string, i: nat, j: nat)
    requires Flatten(history, render).Some?
    requires i < j < |Flatten(history, render).value|
    ensures Flatten(history, render).value[i].id != Flatten(history, render).value[j].id
  {
    var ms := Flatten(history, render).value;
    DecimalInjective(i, j);
    FlattenMatchesKept(history, 0, render);
    var p := IdPrefix(ms[i].kind);
    var q := IdPrefix(ms[j].kind);
    if p == q {
      assert ms[i].id[|p|..] == IntToDecimal(i);
      assert ms[j].id[|p|..] == IntToDecimal(j);
    } else {
      assert ms[i].id[0] != ms[j].id[0];
    }
  }

  // ---------------------------------------------------------------------------
  // the agent's input for a task
  // ---------------------------------------------------------------------------

  /** What the agent is run on: the history to continue, or a fresh query. */
  datatype AgentInput = History(items: seq<Json>) | Query(text: string)

  /**
   * A session with history continues it with the task as a new user item;
   * an empty history starts from the text `User query: <task>`.
   */
  function PrepareInput(history: seq<Json>, task: string): (r: AgentInput)
    ensures history != [] ==> r.History? && |r.items| == |history| + 1 && r.items[..|history|] == history
    ensures history != [] ==> r.items[|history|] == Turn("user", task)
    ensures history == [] ==> r == Query("User query: " + task)
  {
    if history != [] then History(history + [Turn("user", task)]) else Query("User query: " + task)
  }

  /** Flattening `items + [item]` where `item` yields a message adds that one message at the end. */
  lemma FlattenAppend(items: seq<Json>, item: Json, emitted: nat, render: Json -> string, m: Kind)
    requires FlattenFrom(items, emitted, render).Some?
    requires item.JObj? && RoleKind(Get(item.fields, "role", JStr(""))) == Some(m)
    requires ItemContent(item.fields, render).Some?
    ensures var ms := FlattenFrom(items, emitted, render).value;
      FlattenFrom(items + [item], emitted, render)
        == Some(ms + [Message(m, ItemContent(item.fields, render).value, IdPrefix(m) + IntToDecimal(emitted + |ms|))])
  {
    var c := ItemContent(item.fields, render).value;
    assert ItemStep(item, render) == Emit(m, c);
    StepsSnoc(items, item, render);
    EmitSnoc(Steps(items, render), Emit(m, c), emitted);
  }

  /** Folding `st + [s]` for an emitting `s` adds its message at the end. */
  lemma {:induction false} EmitSnoc(st: seq<Step>, s: Step, emitted: nat)
    requires FlattenSteps(st, emitted).Some? && s.Emit?
    ensures var ms := FlattenSteps(st, emitted).value;
      FlattenSteps(st + [s], emitted) == Some(ms + [Message(s.kind, s.content, IdPrefix(s.kind) + IntToDecimal(emitted + |ms|))])
  {
    var all := st + [s];
    if st == [] {
      assert all == [s] && all[1..] == [];
      var x := Message(s.kind, s.content, IdPrefix(s.kind) + IntToDecimal(emitted));
      assert FlattenSteps(all, emitted) == Some([x] + []);
      assert [] + [x] == [x] + [];
    } else {
      assert all[0] == st[0] && all[1..] == st[1..] + [s];
      match st[0]
      case Failure =>
      case Pass => EmitSnoc(st[1..], s, emitted);
      case Emit(k, c) =>
        EmitSnoc(st[1..], s, emitted + 1);
        var rest := FlattenSteps(st[1..], emitted + 1).value;
        var m0 := Message(k, c, IdPrefix(k) + IntToDecimal(emitted));
        var x := Message(s.kind, s.content, IdPrefix(s.kind) + IntToDecimal(emitted + 1 + |rest|));
        assert [m0] + (rest + [x]) == ([m0] + rest) + [x];
    }
  }

  /**
   * Continuing a session whose history flattens to `ms` adds exactly one human
   * message with the task as content and id `user-|ms|`.
   */
  lemma ContinuedViewAddsTask(history: seq<Json>, task: string, render: Json -> string)
    requires history != [] && Flatten(history, render).Some?
    ensures var ms := Flatten(history, render).value;
      Flatten(PrepareInput(history, task).items, render)
        == Some(ms + [Message(Human, JStr(task), "user-" + IntToDecimal(|ms|))])
  {
    var t := Turn("user", task);
    assert RoleKind(Get(t.fields, "role", JStr(""))) == Some(Human);
    assert ItemContent(t.fields, render) == Some(JStr(task));
    FlattenAppend(history, t, 0, render, Human);
  }
}
