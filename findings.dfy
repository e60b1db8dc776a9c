/** The annotations left behind by a run, and the patch that removes them.

    The collection pass adds the "method" and "endpoint" keys to every
    parameter of the document, but add_example_values removes them only from
    the parameters whose name received an answer.  A parameter that already
    had an example, and whose name no prompted parameter shares, is written
    out still carrying both keys, which are not part of the OpenAPI
    parameter object. */
module Findings {
  import opened OpenApi
  import opened ExampleValues

  /** As written: in a written document, every parameter whose name got no
      answer still carries the method key and the path key of its operation. */
  lemma AnnotationsLeft(d0: Paths<ParamValue>, answers: seq<string>, i: int, j: int, k: int)
    requires ValidPos(d0, i, j, k)
    requires RunSpec(d0, answers).Written? && At(d0, i, j, k).name !in RunSpec(d0, answers).values
    ensures At(RunSpec(d0, answers).doc, i, j, k).methodTag == Some(d0[i].1[j].0)
    ensures At(RunSpec(d0, answers).doc, i, j, k).endpointTag == Some(d0[i].0)
  {
    var tagged := TagPaths(d0);
    ShapeValidPos(d0, tagged, i, j, k);
    assert At(tagged, i, j, k) == TagParam(d0[i].0, d0[i].1[j].0, At(d0, i, j, k));
  }

  /** The document of the example: one path "/items" with one "get"
      operation whose parameters are "id" (no example) and "page" (example
      "1"). */
  function LeakDocument(): Paths<ParamValue>
  {
    [("/items", [("get", Operation(Some([
      ParamValue("id", "string", None, None, None),
      ParamValue("page", "integer", Some("1"), None, None)])))])]
  }

  /** As written, on the example: the operator answers "42" for "id", and the
      document written keeps "method": "get" and "endpoint": "/items" on
      "page". */
  lemma AnnotationLeak()
    ensures RunSpec(LeakDocument(), ["42"]).Written?
    ensures var out := RunSpec(LeakDocument(), ["42"]).doc;
      ValidPos(out, 0, 0, 1) && At(out, 0, 0, 1).name == "page"
      && At(out, 0, 0, 1).methodTag == Some("get") && At(out, 0, 0, 1).endpointTag == Some("/items")
  {
    var d0 := LeakDocument();
    LeakPrompt();
    assert ValidPos(d0, 0, 0, 1);
    AnnotationsLeft(d0, ["42"], 0, 0, 1);
    ShapeValidPos(d0, RunSpec(d0, ["42"]).doc, 0, 0, 1);
  }

  /** On the example, only "id" is asked about and answered. */
  lemma LeakPrompt()
    ensures Promptable(Worklist(TagPaths(LeakDocument())))
    ensures var r := PromptSpec(Worklist(TagPaths(LeakDocument())), ["42"]);
      r.Answered? && r.values.Keys == {"id"}
  {
    var id := ParamValue("id", "string", None, Some("get"), Some("/items"));
    var page := ParamValue("page", "integer", Some("1"), Some("get"), Some("/items"));
    LeakWorklist();
    var ws := Worklist(TagPaths(LeakDocument()));
    assert ws[..1] == [id] && [id][..0] == [];
    assert MissingExample([id]) == [id];
    assert MissingExample(ws) == MissingExample(ws[..1]);
    TaggedWorklist(LeakDocument());
    var r := PromptSpec(ws, ["42"]);
    assert r.values.Keys == {"id"} by {
      assert id in ws;
    }
  }

  /** On the example, the worklist holds "id" then "page", both annotated. */
  lemma LeakWorklist()
    ensures Worklist(TagPaths(LeakDocument())) == [
      ParamValue("id", "string", None, Some("get"), Some("/items")),
      ParamValue("page", "integer", Some("1"), Some("get"), Some("/items"))]
  {
    var d0 := LeakDocument();
    var tagged := TagPaths(d0);
    assert ValidPos(d0, 0, 0, 0) && ValidPos(d0, 0, 0, 1);
    var params := [At(tagged, 0, 0, 0), At(tagged, 0, 0, 1)];
    assert tagged[..0] == [] && tagged[0].1[..0] == [];
    assert Flat(tagged) == ItemSlots("/items", tagged[0].1);
    assert ItemSlots("/items", tagged[0].1) == OpSlots("/items", "get", params);
  }

  // ---------------------------------------------------------------------
  // Corrected.

  /** The patch as intended: the annotations come off every parameter, and a
      parameter whose name has an answer gets that answer as its example. */
  function PatchParamFixed(v: ParamValue, values: map<string, string>): (r: ParamValue)
    ensures r.name == v.name && r.schemaType == v.schemaType
    ensures r.methodTag.None? && r.endpointTag.None?
    ensures r.example == if v.name in values then Some(values[v.name]) else v.example
  {
    var clean := v.(methodTag := None, endpointTag := None);
    if v.name in values then clean.(example := Some(values[v.name])) else clean
  }

  function PatchPathsFixed(d: Paths<ParamValue>, values: map<string, string>): (r: Paths<ParamValue>)
    ensures Shape(r) == Shape(d)
    ensures forall i, j, k :: ValidPos(d, i, j, k) ==>
      ValidPos(r, i, j, k) && At(r, i, j, k) == PatchParamFixed(At(d, i, j, k), values)
  {
    MapPaths(d, (path: string, verb: string, v: ParamValue) => PatchParamFixed(v, values))
  }

  /** The run with the corrected patch. */
  function RunFixedSpec(d0: Paths<ParamValue>, answers: seq<string>): RunOutcome
  {
    match RunSpec(d0, answers)
    case Written(values, prompts, _) => Written(values, prompts, PatchPathsFixed(TagPaths(d0), values))
    case other => other
  }

  /** Corrected: the run stops, prompts and collects exactly as before; the
      document it writes has no annotation left on any parameter and agrees
      with the as-written output on every name, type and example. */
  lemma FixedRunClean(d0: Paths<ParamValue>, answers: seq<string>)
    ensures RunFixedSpec(d0, answers).Written? <==> RunSpec(d0, answers).Written?
    ensures !RunSpec(d0, answers).Written? ==> RunFixedSpec(d0, answers) == RunSpec(d0, answers)
    ensures RunSpec(d0, answers).Written? ==>
      var fixed, out := RunFixedSpec(d0, answers), RunSpec(d0, answers);
      && fixed.values == out.values && fixed.prompts == out.prompts
      && Shape(fixed.doc) == Shape(d0)
      && forall i, j, k :: ValidPos(d0, i, j, k) ==>
           var w, u := At(fixed.doc, i, j, k), At(out.doc, i, j, k);
           && w.methodTag.None? && w.endpointTag.None?
           && w.name == u.name && w.schemaType == u.schemaType && w.example == u.example
  {
    if RunSpec(d0, answers).Written? {
      var out := RunSpec(d0, answers);
      var tagged := TagPaths(d0);
      var fixed := RunFixedSpec(d0, answers);
      forall i, j, k | ValidPos(d0, i, j, k)
        ensures var w, u := At(fixed.doc, i, j, k), At(out.doc, i, j, k);
          && w.methodTag.None? && w.endpointTag.None?
          && w.name == u.name && w.schemaType == u.schemaType && w.example == u.example
      {
        ShapeValidPos(d0, tagged, i, j, k);
      }
    }
  }

  /** Corrected: running again on the corrected output prompts for nothing. */
  lemma FixedRerunNothingToDo(d0: Paths<ParamValue>, answers: seq<string>, again: seq<string>)
    requires RunFixedSpec(d0, answers).Written?
    ensures RunSpec(RunFixedSpec(d0, answers).doc, again).NothingToDo?
  {
    FixedRunClean(d0, answers);
    RunWritten(d0, answers);
    var doc := RunFixedSpec(d0, answers).doc;
    forall i, j, k | ValidPos(doc, i, j, k)
      ensures At(doc, i, j, k).example.Some?
    {
      ShapeValidPos(doc, d0, i, j, k);
    }
    RunNothingToDo(doc, again);
  }
}
