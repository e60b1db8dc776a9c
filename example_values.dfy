/** What the example adder does, as functions on plain documents: tagging a
    parameter with its owner, collecting the operator's answers, patching the
    answers back in, and the whole run.  The imperative methods in module
    ExampleAdder are proved to compute exactly these. */
module ExampleValues {
  import opened OpenApi

  // ---------------------------------------------------------------------
  // Collection: annotate each parameter with the method key and path key of
  // the operation that owns it.

  /** The annotations of one parameter: its "method" key and its "endpoint"
      key are set to its operation's method key and path key; nothing else
      about it changes. */
  function TagParam(path: string, verb: string, v: ParamValue): (r: ParamValue)
    ensures r.methodTag == Some(verb) && r.endpointTag == Some(path)
    ensures r.name == v.name && r.schemaType == v.schemaType && r.example == v.example
  {
    v.(methodTag := Some(verb), endpointTag := Some(path))
  }

  function TagPaths(d: Paths<ParamValue>): (r: Paths<ParamValue>)
    ensures Shape(r) == Shape(d)
    ensures forall i, j, k :: ValidPos(d, i, j, k) ==>
      ValidPos(r, i, j, k) && At(r, i, j, k) == TagParam(d[i].0, d[i].1[j].0, At(d, i, j, k))
  {
    MapPaths(d, TagParam)
  }

  /** The worklist: every parameter of every operation with a parameters
      list, in path, method, list order. */
  function Worklist<P>(d: Paths<P>): seq<P>
  {
    SlotParams(Flat(d))
  }

  /** The worklist holds exactly the parameter entries of the document. */
  lemma WorklistMembers<P>(d: Paths<P>, v: P)
    ensures v in Worklist(d) <==> exists i, j, k :: ValidPos(d, i, j, k) && At(d, i, j, k) == v
  {
    if v in Worklist(d) {
      var n :| 0 <= n < |Worklist(d)| && Worklist(d)[n] == v;
      FlatSound(d, n);
    }
    if exists i, j, k :: ValidPos(d, i, j, k) && At(d, i, j, k) == v {
      var i, j, k :| ValidPos(d, i, j, k) && At(d, i, j, k) == v;
      FlatComplete(d, i, j, k);
      var n :| 0 <= n < |Flat(d)| && Flat(d)[n] == Slot(d[i].0, d[i].1[j].0, v);
      assert Worklist(d)[n] == v;
    }
  }

  // ---------------------------------------------------------------------
  // Prompting.

  /** What the operator is shown for one parameter: its name, its schema
      type, and the method and path of its operation. */
  datatype Prompt = Prompt(name: string, schemaType: string, verb: string, path: string)

  predicate Tagged(v: ParamValue)
  {
    v.methodTag.Some? && v.endpointTag.Some?
  }

  function PromptFor(v: ParamValue): Prompt
    requires Tagged(v)
  {
    Prompt(v.name, v.schemaType, v.methodTag.value, v.endpointTag.value)
  }

  function Prompts(ms: seq<ParamValue>): seq<Prompt>
    requires forall v :: v in ms ==> Tagged(v)
  {
    seq(|ms|, n requires 0 <= n < |ms| => PromptFor(ms[n]))
  }

  /** Every worklist entry that will be prompted for carries its annotations
      (reading them is the only other lookup the prompting loop makes). */
  predicate Promptable(ws: seq<ParamValue>)
  {
    forall v :: v in ws && v.example.None? ==> Tagged(v)
  }

  /** The worklist entries prompted for: those whose schema has no example,
      in worklist order. */
  function MissingExample(ws: seq<ParamValue>): seq<ParamValue>
  {
    if |ws| == 0 then []
    else MissingExample(ws[..|ws| - 1]) + (if ws[|ws| - 1].example.None? then [ws[|ws| - 1]] else [])
  }

  /** The filter keeps exactly the entries without an example. */
  lemma {:induction false} MissingExampleMembers(ws: seq<ParamValue>)
    ensures forall v :: v in MissingExample(ws) <==> v in ws && v.example.None?
  {
    if |ws| > 0 {
      var front := ws[..|ws| - 1];
      assert ws == front + [ws[|ws| - 1]];
      MissingExampleMembers(front);
    }
  }

  /** Filtering keeps the worklist order: it distributes over concatenation. */
  lemma {:induction false} MissingExampleAppend(a: seq<ParamValue>, b: seq<ParamValue>)
    ensures MissingExample(a + b) == MissingExample(a) + MissingExample(b)
  {
    if |b| > 0 {
      var last := |b| - 1;
      assert (a + b)[..|a + b| - 1] == a + b[..last];
      assert (a + b)[|a + b| - 1] == b[last];
      MissingExampleAppend(a, b[..last]);
      var tail := if b[last].example.None? then [b[last]] else [];
      calc {
        MissingExample(a + b);
        MissingExample(a + b[..last]) + tail;
        (MissingExample(a) + MissingExample(b[..last])) + tail;
        MissingExample(a) + (MissingExample(b[..last]) + tail);
        MissingExample(a) + MissingExample(b);
      }
    } else {
      assert a + b == a;
    }
  }

  /** One more worklist entry adds itself to the filtered prefix exactly when
      it has no example. */
  lemma MissingExampleStep(ws: seq<ParamValue>, i: int)
    requires 0 <= i < |ws|
    ensures MissingExample(ws[..i + 1]) ==
      MissingExample(ws[..i]) + (if ws[i].example.None? then [ws[i]] else [])
  {
    assert ws[..i + 1][..i] == ws[..i];
  }

  /** A prefix of the worklist has no more entries to prompt for than the whole. */
  lemma MissingExamplePrefix(ws: seq<ParamValue>, i: int)
    requires 0 <= i <= |ws|
    ensures |MissingExample(ws[..i])| <= |MissingExample(ws)|
  {
    assert ws == ws[..i] + ws[i..];
    MissingExampleAppend(ws[..i], ws[i..]);
  }

  /** The answer map after prompting for `ms` in order, the n-th prompt
      being answered by answers[n]: each answer is stored verbatim under the
      parameter's name, a later answer replacing an earlier one. */
  function Answers(ms: seq<ParamValue>, answers: seq<string>): (m: map<string, string>)
    requires |ms| <= |answers|
    ensures m.Keys == set v | v in ms :: v.name
  {
    if |ms| == 0 then map[]
    else
      var last := |ms| - 1;
      var front := Answers(ms[..last], answers);
      assert ms == ms[..last] + [ms[last]];
      front[ms[last].name := answers[last]]
  }

  lemma AnswersSnoc(ms: seq<ParamValue>, x: ParamValue, answers: seq<string>)
    requires |ms| < |answers|
    ensures Answers(ms + [x], answers) == Answers(ms, answers)[x.name := answers[|ms|]]
  {
    assert (ms + [x])[..|ms|] == ms;
  }

  /** Last write wins: a name is mapped to the answer given at its last prompt. */
  lemma {:induction false} AnswersLastWins(ms: seq<ParamValue>, answers: seq<string>, n: int)
    requires |ms| <= |answers| && 0 <= n < |ms|
    requires forall n' :: n < n' < |ms| ==> ms[n'].name != ms[n].name
    ensures ms[n].name in Answers(ms, answers)
    ensures Answers(ms, answers)[ms[n].name] == answers[n]
  {
    var last := |ms| - 1;
    if n < last {
      AnswersLastWins(ms[..last], answers, n);
    }
  }

  datatype PromptOutcome =
    | Answered(values: map<string, string>, prompts: seq<Prompt>)
    | EndOfInput   // the operator's input ended before every prompt was answered

  /** Prompting over a worklist with the given operator answers. */
  function PromptSpec(ws: seq<ParamValue>, answers: seq<string>): (r: PromptOutcome)
    requires Promptable(ws)
    ensures r.EndOfInput? <==> |answers| < |MissingExample(ws)|
    ensures r.Answered? ==> r.values.Keys == set v | v in ws && v.example.None? :: v.name
    ensures r.Answered? ==> |r.prompts| == |MissingExample(ws)|
  {
    var ms := MissingExample(ws);
    MissingExampleMembers(ws);
    if |answers| < |ms| then EndOfInput
    else
      var values := Answers(ms, answers);
      assert values.Keys == set v | v in ws && v.example.None? :: v.name by {
        forall s | s in values.Keys
          ensures s in set v | v in ws && v.example.None? :: v.name
        {
          var v :| v in ms && v.name == s;
        }
        forall s | s in set v | v in ws && v.example.None? :: v.name
          ensures s in values.Keys
        {
          var v :| v in ws && v.example.None? && v.name == s;
          assert v in ms;
        }
      }
      Answered(values, Prompts(ms))
  }

  /** No prompt and an empty map when no worklist entry lacks an example
      (in particular for an empty worklist). */
  lemma NothingMissing(ws: seq<ParamValue>, answers: seq<string>)
    requires forall v :: v in ws ==> v.example.Some?
    ensures Promptable(ws)
    ensures PromptSpec(ws, answers) == Answered(map[], [])
  {
    MissingExampleNone(ws);
  }

  lemma {:induction false} MissingExampleNone(ws: seq<ParamValue>)
    requires forall v :: v in ws ==> v.example.Some?
    ensures MissingExample(ws) == []
  {
    if |ws| > 0 {
      var last := |ws| - 1;
      assert ws[last] in ws;
      assert forall v :: v in ws[..last] ==> v in ws;
      MissingExampleNone(ws[..last]);
    }
  }

  // ---------------------------------------------------------------------
  // Patching.

  /** One parameter after the patch: a parameter whose name has an answer
      gets that answer as its example (overwriting one it had) and loses both
      annotations; any other parameter is left exactly as it was. */
  function PatchParam(v: ParamValue, values: map<string, string>): (r: ParamValue)
    ensures r.name == v.name && r.schemaType == v.schemaType
    ensures v.name in values ==> r.example == Some(values[v.name]) && r.methodTag.None? && r.endpointTag.None?
    ensures v.name !in values ==> r == v
  {
    if v.name in values then v.(example := Some(values[v.name]), methodTag := None, endpointTag := None)
    else v
  }

  function PatchPaths(d: Paths<ParamValue>, values: map<string, string>): (r: Paths<ParamValue>)
    ensures Shape(r) == Shape(d)
    ensures forall i, j, k :: ValidPos(d, i, j, k) ==>
      ValidPos(r, i, j, k) && At(r, i, j, k) == PatchParam(At(d, i, j, k), values)
  {
    MapPaths(d, (path: string, verb: string, v: ParamValue) => PatchParam(v, values))
  }

  /** Patching twice with the same map is patching once. */
  lemma PatchIdempotent(d: Paths<ParamValue>, values: map<string, string>)
    ensures PatchPaths(PatchPaths(d, values), values) == PatchPaths(d, values)
  {
    var once := PatchPaths(d, values);
    var twice := PatchPaths(once, values);
    forall i, j, k | ValidPos(twice, i, j, k)
      ensures ValidPos(once, i, j, k) && At(twice, i, j, k) == At(once, i, j, k)
    {
      ShapeValidPos(twice, d, i, j, k);
    }
    PathsExt(twice, once);
  }

  /** What the patch does at every position of the document, stated for each
      parameter: answered names get the answer and no annotations, the other
      parameters are unchanged, and nothing else in the document changes. */
  lemma PatchEffect(d: Paths<ParamValue>, values: map<string, string>, i: int, j: int, k: int)
    requires ValidPos(d, i, j, k)
    ensures Shape(PatchPaths(d, values)) == Shape(d)
    ensures var v, w := At(d, i, j, k), At(PatchPaths(d, values), i, j, k);
      && w.name == v.name && w.schemaType == v.schemaType
      && (v.name in values ==> w.example == Some(values[v.name]) && w.methodTag.None? && w.endpointTag.None?)
      && (v.name !in values ==> w == v)
  {
  }

  // ---------------------------------------------------------------------
  // The whole run.

  datatype RunOutcome =
    | Aborted       // the operator's input ended: nothing is written
    | NothingToDo   // no parameter lacked an example: nothing is patched or written
    | Written(values: map<string, string>, prompts: seq<Prompt>, doc: Paths<ParamValue>)

  lemma TaggedWorklist(d0: Paths<ParamValue>)
    ensures forall v :: v in Worklist(TagPaths(d0)) ==> Tagged(v)
    ensures Promptable(Worklist(TagPaths(d0)))
  {
    FlatMap(d0, TagParam);
    var ws := Worklist(TagPaths(d0));
    var ss := MapSlots(Flat(d0), TagParam);
    assert Flat(TagPaths(d0)) == ss;
    forall v | v in ws
      ensures Tagged(v)
    {
      var n :| 0 <= n < |ws| && ws[n] == v;
      assert v == ss[n].param == TagParam(Flat(d0)[n].path, Flat(d0)[n].verb, Flat(d0)[n].param);
    }
  }

  /** Load, collect, prompt, and either stop (the empty-map short-circuit, or
      the operator's input ending) or patch and write the document. */
  function RunSpec(d0: Paths<ParamValue>, answers: seq<string>): RunOutcome
  {
    var tagged := TagPaths(d0);
    TaggedWorklist(d0);
    match PromptSpec(Worklist(tagged), answers)
    case EndOfInput => Aborted
    case Answered(values, prompts) =>
      if |values| == 0 then NothingToDo else Written(values, prompts, PatchPaths(tagged, values))
  }

  /** The parameter that the operator is asked about at a slot. */
  function SlotPrompt(s: Slot<ParamValue>): Prompt
  {
    Prompt(s.param.name, s.param.schemaType, s.verb, s.path)
  }

  function MissingSlots(ss: seq<Slot<ParamValue>>): seq<Slot<ParamValue>>
  {
    if |ss| == 0 then []
    else MissingSlots(ss[..|ss| - 1]) + (if ss[|ss| - 1].param.example.None? then [ss[|ss| - 1]] else [])
  }

  function SlotPrompts(ss: seq<Slot<ParamValue>>): seq<Prompt>
  {
    seq(|ss|, n requires 0 <= n < |ss| => SlotPrompt(ss[n]))
  }

  lemma PromptsAppend(a: seq<ParamValue>, b: seq<ParamValue>)
    requires forall v :: v in a ==> Tagged(v)
    requires forall v :: v in b ==> Tagged(v)
    ensures Prompts(a + b) == Prompts(a) + Prompts(b)
  {
  }

  lemma SlotPromptsAppend(a: seq<Slot<ParamValue>>, b: seq<Slot<ParamValue>>)
    ensures SlotPrompts(a + b) == SlotPrompts(a) + SlotPrompts(b)
  {
  }

  lemma {:induction false} PromptsOfSlots(ss: seq<Slot<ParamValue>>)
    ensures var ms := MissingExample(SlotParams(MapSlots(ss, TagParam)));
      (forall v :: v in ms ==> Tagged(v)) && Prompts(ms) == SlotPrompts(MissingSlots(ss))
  {
    var ws := SlotParams(MapSlots(ss, TagParam));
    var ms := MissingExample(ws);
    MissingExampleMembers(ws);
    forall v | v in ms
      ensures Tagged(v)
    {
      var n :| 0 <= n < |ws| && ws[n] == v;
    }
    if |ss| > 0 {
      var last := |ss| - 1;
      var s := ss[last];
      var x := TagParam(s.path, s.verb, s.param);
      var front := SlotParams(MapSlots(ss[..last], TagParam));
      assert ws == front + [x];
      PromptsOfSlots(ss[..last]);
      MissingExampleAppend(front, [x]);
      var tailM := MissingExample([x]);
      assert tailM == (if s.param.example.None? then [x] else []) by {
        assert [x][..0] == [];
      }
      var tailS := if s.param.example.None? then [s] else [];
      assert MissingSlots(ss) == MissingSlots(ss[..last]) + tailS;
      PromptsAppend(MissingExample(front), tailM);
      SlotPromptsAppend(MissingSlots(ss[..last]), tailS);
      assert Prompts(tailM) == SlotPrompts(tailS);
    }
  }

  /** The operator is prompted once for each parameter lacking an example, in
      document order (path, then method, then list position), and each prompt
      names the parameter's own method key and path key. */
  lemma RunPrompts(d0: Paths<ParamValue>, answers: seq<string>)
    requires RunSpec(d0, answers).Written?
    ensures RunSpec(d0, answers).prompts == SlotPrompts(MissingSlots(Flat(d0)))
  {
    FlatMap(d0, TagParam);
    PromptsOfSlots(Flat(d0));
  }

  /** A run stops with nothing to do exactly when every parameter of the
      document already has an example. */
  lemma RunNothingToDo(d0: Paths<ParamValue>, answers: seq<string>)
    ensures RunSpec(d0, answers).NothingToDo? <==>
      forall i, j, k :: ValidPos(d0, i, j, k) ==> At(d0, i, j, k).example.Some?
  {
    var tagged := TagPaths(d0);
    var ws := Worklist(tagged);
    TaggedWorklist(d0);
    if forall i, j, k :: ValidPos(d0, i, j, k) ==> At(d0, i, j, k).example.Some? {
      forall v | v in ws
        ensures v.example.Some?
      {
        WorklistMembers(tagged, v);
      }
      NothingMissing(ws, answers);
    }
    if RunSpec(d0, answers).NothingToDo? {
      var r := PromptSpec(ws, answers);
      assert r.Answered?;
      var keys := r.values.Keys;
      assert keys == {};
      forall i, j, k | ValidPos(d0, i, j, k)
        ensures At(d0, i, j, k).example.Some?
      {
        var v := At(tagged, i, j, k);
        WorklistMembers(tagged, v);
        assert v.example.None? ==> v.name in keys;
      }
    }
  }

  /** The document a run writes: the same shape as the input; an answer for
      every parameter that lacked an example; every parameter with an example;
      answered names carry the answer and no annotations; every other
      parameter keeps the example it had. */
  lemma RunWritten(d0: Paths<ParamValue>, answers: seq<string>)
    requires RunSpec(d0, answers).Written?
    ensures var out := RunSpec(d0, answers);
      && |out.values| > 0
      && Shape(out.doc) == Shape(d0)
      && (forall s :: s in out.values ==>
            exists i, j, k :: ValidPos(d0, i, j, k) && At(d0, i, j, k).example.None? && At(d0, i, j, k).name == s)
      && (forall i, j, k :: ValidPos(d0, i, j, k) ==>
            var v, w := At(d0, i, j, k), At(out.doc, i, j, k);
            && w.name == v.name && w.schemaType == v.schemaType && w.example.Some?
            && (v.example.None? ==> v.name in out.values)
            && (v.name in out.values ==>
                  w.example == Some(out.values[v.name]) && w.methodTag.None? && w.endpointTag.None?)
            && (v.name !in out.values ==> w.example == v.example))
  {
    var out := RunSpec(d0, answers);
    var tagged := TagPaths(d0);
    var ws := Worklist(tagged);
    TaggedWorklist(d0);
    var r := PromptSpec(ws, answers);
    assert r.Answered? && out.values == r.values && out.doc == PatchPaths(tagged, r.values);
    forall s | s in out.values
      ensures exists i, j, k :: ValidPos(d0, i, j, k) && At(d0, i, j, k).example.None? && At(d0, i, j, k).name == s
    {
      var v :| v in ws && v.example.None? && v.name == s;
      WorklistMembers(tagged, v);
      var i, j, k :| ValidPos(tagged, i, j, k) && At(tagged, i, j, k) == v;
      ShapeValidPos(tagged, d0, i, j, k);
    }
    forall i, j, k | ValidPos(d0, i, j, k)
      ensures At(d0, i, j, k).example.None? ==> At(d0, i, j, k).name in out.values
    {
      var v := At(tagged, i, j, k);
      WorklistMembers(tagged, v);
    }
  }

  /** Running again on the written document prompts for nothing and stops
      with nothing to do. */
  lemma RerunNothingToDo(d0: Paths<ParamValue>, answers: seq<string>, again: seq<string>)
    requires RunSpec(d0, answers).Written?
    ensures RunSpec(RunSpec(d0, answers).doc, again).NothingToDo?
  {
    var doc := RunSpec(d0, answers).doc;
    RunWritten(d0, answers);
    forall i, j, k | ValidPos(doc, i, j, k)
      ensures At(doc, i, j, k).example.Some?
    {
      ShapeValidPos(doc, d0, i, j, k);
    }
    RunNothingToDo(doc, again);
  }
}
