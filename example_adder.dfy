/** The three passes of the example adder over a live document, with the
    parameter entries updated in place, and the main flow that chains them.
    Each pass is proved to compute the corresponding function of module
    ExampleValues. */
module ExampleAdder {
  import opened OpenApi
  import opened ExampleValues

  /** The current values of a worklist of parameter entries. */
  function Values(ws: seq<Parameter>): (vs: seq<ParamValue>)
    reads ws
    ensures |vs| == |ws| && forall n :: 0 <= n < |ws| ==> vs[n] == ws[n].Value()
  {
    seq(|ws|, n requires 0 <= n < |ws| reads ws => ws[n].Value())
  }

  /** (i', j', k') comes before (i, j, k) in path, method, list order. */
  predicate Before(i': int, j': int, k': int, i: int, j: int, k: int)
  {
    i' < i || (i' == i && (j' < j || (j' == j && k' < k)))
  }

  /** Every parameter position before (i, j, k) holds an entry of `done`. */
  ghost predicate Covered(spec: Paths<Parameter>, done: set<Parameter>, i: int, j: int, k: int)
  {
    forall i', j', k' :: ValidPos(spec, i', j', k') && Before(i', j', k', i, j, k) ==> At(spec, i', j', k') in done
  }

  lemma CoveredStep(spec: Paths<Parameter>, done: set<Parameter>, done': set<Parameter>, i: int, j: int, k: int)
    requires Covered(spec, done, i, j, k) && done <= done'
    requires ValidPos(spec, i, j, k) && At(spec, i, j, k) in done'
    ensures Covered(spec, done', i, j, k + 1)
  {
  }

  lemma CoveredNextOp(spec: Paths<Parameter>, done: set<Parameter>, i: int, j: int)
    requires 0 <= i < |spec| && 0 <= j < |spec[i].1|
    requires Covered(spec, done, i, j, |OpParams(spec[i].1[j].1)|)
    ensures Covered(spec, done, i, j + 1, 0)
  {
  }

  lemma CoveredNextPath(spec: Paths<Parameter>, done: set<Parameter>, i: int)
    requires 0 <= i < |spec|
    requires Covered(spec, done, i, |spec[i].1|, 0)
    ensures Covered(spec, done, i + 1, 0, 0)
  {
  }

  /** The worklist of the document holds the document's own parameter
      entries, so its current values are the worklist of the snapshot. */
  lemma SnapshotWorklist(spec: Paths<Parameter>)
    ensures Values(Worklist(spec)) == Worklist(Snapshot(spec))
  {
    var env := Env(spec);
    FlatMap(spec, LookupIn(env));
    var fl := Flat(spec);
    forall n | 0 <= n < |fl|
      ensures Worklist(Snapshot(spec))[n] == fl[n].param.Value()
    {
      FlatSound(spec, n);
      var i, j, k :| ValidPos(spec, i, j, k) && fl[n] == Slot(spec[i].0, spec[i].1[j].0, At(spec, i, j, k));
      assert fl[n].param in Objects(spec);
    }
  }

  /** Collection (the nested loop at the start of main): every parameter of
      every operation that has a "parameters" key gets the method key and the
      path key of its operation, and is appended to the worklist, in path,
      method, list order. */
  method CollectParameters(spec: Paths<Parameter>) returns (worklist: seq<Parameter>)
    requires IsTree(spec)
    modifies Objects(spec)
    ensures worklist == Worklist(spec)
    ensures forall i, j, k :: ValidPos(spec, i, j, k) ==>
      At(spec, i, j, k).Value() == TagParam(spec[i].0, spec[i].1[j].0, old(At(spec, i, j, k).Value()))
    ensures Snapshot(spec) == TagPaths(old(Snapshot(spec)))
  {
    ghost var before := Snapshot(spec);
    ghost var orig := Env(spec);
    ghost var owner: map<Parameter, (string, string)> := map[];
    worklist := [];
    var i := 0;
    while i < |spec|
      invariant 0 <= i <= |spec|
      invariant worklist == SlotParams(Flat(spec[..i]))
      invariant Owners(spec, owner, i, 0, 0)
      invariant TaggedSoFar(spec, orig, owner)
    {
      var added;
      added, owner := CollectPathItem(spec, i, orig, owner);
      FlatStep(spec, i);
      worklist := worklist + added;
      OwnersNextPath(spec, owner, i);
      i := i + 1;
    }
    assert spec[..i] == spec;
    forall i', j', k' | ValidPos(spec, i', j', k')
      ensures At(spec, i', j', k').Value() == TagParam(spec[i'].0, spec[i'].1[j'].0, old(At(spec, i', j', k').Value()))
    {
      var q := At(spec, i', j', k');
      assert q in owner && owner[q] == (spec[i'].0, spec[i'].1[j'].0);
      assert q in Objects(spec);
    }
    PathsExt(Snapshot(spec), TagPaths(before));
  }

  /** Every parameter position before (i, j, k) holds an entry that `owner`
      assigns to that position's path key and method key. */
  ghost predicate Owners(spec: Paths<Parameter>, owner: map<Parameter, (string, string)>, i: int, j: int, k: int)
  {
    forall i', j', k' :: ValidPos(spec, i', j', k') && Before(i', j', k', i, j, k) ==>
      At(spec, i', j', k') in owner && owner[At(spec, i', j', k')] == (spec[i'].0, spec[i'].1[j'].0)
  }

  /** In a tree, assigning the entry at (i, j, k) to its own operation keeps
      every earlier assignment. */
  lemma OwnersStep(spec: Paths<Parameter>, owner: map<Parameter, (string, string)>, i: int, j: int, k: int)
    requires IsTree(spec) && ValidPos(spec, i, j, k) && Owners(spec, owner, i, j, k)
    ensures Owners(spec, owner[At(spec, i, j, k) := (spec[i].0, spec[i].1[j].0)], i, j, k + 1)
  {
    forall i', j', k' | ValidPos(spec, i', j', k') && Before(i', j', k', i, j, k)
      ensures At(spec, i', j', k') != At(spec, i, j, k)
    {
      assert EntryAt(spec, i', j', k') != EntryAt(spec, i, j, k);
    }
  }

  lemma OwnersNextOp(spec: Paths<Parameter>, owner: map<Parameter, (string, string)>, i: int, j: int)
    requires 0 <= i < |spec| && 0 <= j < |spec[i].1|
    requires Owners(spec, owner, i, j, |OpParams(spec[i].1[j].1)|)
    ensures Owners(spec, owner, i, j + 1, 0)
  {
  }

  lemma OwnersNextPath(spec: Paths<Parameter>, owner: map<Parameter, (string, string)>, i: int)
    requires 0 <= i < |spec|
    requires Owners(spec, owner, i, |spec[i].1|, 0)
    ensures Owners(spec, owner, i + 1, 0, 0)
  {
  }

  /** Progress of the collection pass against the values `orig` the entries
      had when it started: an entry in `owner` carries the annotations of the
      path key and method key it is assigned, every other entry is
      untouched. */
  ghost predicate TaggedSoFar(spec: Paths<Parameter>, orig: map<Parameter, ParamValue>, owner: map<Parameter, (string, string)>)
    reads Objects(spec)
  {
    forall q :: q in Objects(spec) ==>
      q.Value() == if q in owner then TagParam(owner[q].0, owner[q].1, Lookup(orig, q)) else Lookup(orig, q)
  }

  /** The loop over the methods of path item i; returns what it appended to
      the worklist. */
  method CollectPathItem(spec: Paths<Parameter>, i: int, ghost orig: map<Parameter, ParamValue>,
                         ghost owner0: map<Parameter, (string, string)>)
    returns (added: seq<Parameter>, ghost owner: map<Parameter, (string, string)>)
    requires 0 <= i < |spec| && IsTree(spec)
    requires Owners(spec, owner0, i, 0, 0) && TaggedSoFar(spec, orig, owner0)
    modifies Objects(spec)
    ensures added == SlotParams(ItemSlots(spec[i].0, spec[i].1))
    ensures Owners(spec, owner, i, |spec[i].1|, 0) && TaggedSoFar(spec, orig, owner)
    ensures OwnerGrows(owner0, owner, Entries(SlotParams(ItemSlots(spec[i].0, spec[i].1))))
  {
    owner := owner0;
    added := [];
    var path := spec[i].0;
    var item := spec[i].1;
    var j := 0;
    while j < |item|
      invariant 0 <= j <= |item|
      invariant added == SlotParams(ItemSlots(path, item[..j]))
      invariant Owners(spec, owner, i, j, 0)
      invariant TaggedSoFar(spec, orig, owner)
      invariant OwnerGrows(owner0, owner, Entries(SlotParams(ItemSlots(path, item[..j]))))
    {
      ItemSlotsStep(path, item, j);
      EntriesAppend(SlotParams(ItemSlots(path, item[..j])), OpParams(item[j].1));
      if item[j].1.parameters.Some? {
        var more;
        ghost var prev := owner;
        more, owner := CollectParameterList(spec, i, j, orig, owner);
        OwnerGrowsTrans(owner0, prev, owner, Entries(SlotParams(ItemSlots(path, item[..j]))), Entries(OpParams(item[j].1)));
        added := added + more;
      }
      OwnersNextOp(spec, owner, i, j);
      j := j + 1;
    }
    assert item[..j] == item;
  }

  /** The parameters of one more method extend the flattened path item. */
  lemma ItemSlotsStep<P>(path: string, item: PathItem<P>, j: int)
    requires 0 <= j < |item|
    ensures SlotParams(ItemSlots(path, item[..j + 1])) == SlotParams(ItemSlots(path, item[..j])) + OpParams(item[j].1)
  {
    var slots := OpSlots(path, item[j].0, OpParams(item[j].1));
    assert item[..j + 1][..j] == item[..j];
    assert ItemSlots(path, item[..j + 1]) == ItemSlots(path, item[..j]) + slots;
    SlotParamsAppend(ItemSlots(path, item[..j]), slots);
    assert SlotParams(slots) == OpParams(item[j].1);
  }

  /** The parameters of one more path item extend the flattened document. */
  lemma FlatStep<P>(ps: Paths<P>, i: int)
    requires 0 <= i < |ps|
    ensures SlotParams(Flat(ps[..i + 1])) == SlotParams(Flat(ps[..i])) + SlotParams(ItemSlots(ps[i].0, ps[i].1))
  {
    assert ps[..i + 1][..i] == ps[..i];
    SlotParamsAppend(Flat(ps[..i]), ItemSlots(ps[i].0, ps[i].1));
  }

  /** The loop over the parameter list of method j of path item i: tag each
      entry with its method and path, and return the list in order. */
  method CollectParameterList(spec: Paths<Parameter>, i: int, j: int, ghost orig: map<Parameter, ParamValue>,
                              ghost owner0: map<Parameter, (string, string)>)
    returns (added: seq<Parameter>, ghost owner: map<Parameter, (string, string)>)
    requires 0 <= i < |spec| && 0 <= j < |spec[i].1| && spec[i].1[j].1.parameters.Some? && IsTree(spec)
    requires Owners(spec, owner0, i, j, 0) && TaggedSoFar(spec, orig, owner0)
    modifies Objects(spec)
    ensures added == OpParams(spec[i].1[j].1)
    ensures Owners(spec, owner, i, j, |OpParams(spec[i].1[j].1)|) && TaggedSoFar(spec, orig, owner)
    ensures OwnerGrows(owner0, owner, Entries(OpParams(spec[i].1[j].1)))
  {
    owner := owner0;
    added := [];
    var path := spec[i].0;
    var verb := spec[i].1[j].0;
    var params := spec[i].1[j].1.parameters.value;
    var k := 0;
    while k < |params|
      invariant 0 <= k <= |params|
      invariant added == params[..k]
      invariant Owners(spec, owner, i, j, k)
      invariant TaggedSoFar(spec, orig, owner)
      invariant OwnerGrows(owner0, owner, Entries(params[..k]))
    {
      var p := params[k];
      assert ValidPos(spec, i, j, k) && p == At(spec, i, j, k);
      ghost var prev := owner;
      owner := TagAt(spec, i, j, k, orig, owner);
      EntriesSnoc(params, k);
      OwnerGrowsTrans(owner0, prev, owner, Entries(params[..k]), {p});
      PrefixSnoc(params, k);
      added := added + [p];
      k := k + 1;
    }
    assert params[..k] == params;
  }

  /** `owner` extends `owner0` by exactly the entries `es`: no other entry
      gains or changes its assignment. */
  ghost predicate OwnerGrows(owner0: map<Parameter, (string, string)>, owner: map<Parameter, (string, string)>,
                             es: set<Parameter>)
  {
    && owner.Keys == owner0.Keys + es
    && forall q :: q in owner0 && q !in es ==> owner[q] == owner0[q]
  }

  lemma OwnerGrowsTrans(o0: map<Parameter, (string, string)>, o1: map<Parameter, (string, string)>,
                        o2: map<Parameter, (string, string)>, e1: set<Parameter>, e2: set<Parameter>)
    requires OwnerGrows(o0, o1, e1) && OwnerGrows(o1, o2, e2)
    ensures OwnerGrows(o0, o2, e1 + e2)
  {
  }

  lemma PrefixSnoc<T>(s: seq<T>, k: int)
    requires 0 <= k < |s|
    ensures s[..k + 1] == s[..k] + [s[k]]
  {
  }

  /** One step of the collection pass: tag the entry at (i, j, k) with the
      method key and path key of its operation, and record that assignment. */
  method TagAt(spec: Paths<Parameter>, i: int, j: int, k: int,
               ghost orig: map<Parameter, ParamValue>, ghost owner0: map<Parameter, (string, string)>)
    returns (ghost owner: map<Parameter, (string, string)>)
    requires IsTree(spec) && ValidPos(spec, i, j, k)
    requires Owners(spec, owner0, i, j, k) && TaggedSoFar(spec, orig, owner0)
    modifies Objects(spec)
    ensures Owners(spec, owner, i, j, k + 1) && TaggedSoFar(spec, orig, owner)
    ensures owner == owner0[At(spec, i, j, k) := (spec[i].0, spec[i].1[j].0)]
    ensures OwnerGrows(owner0, owner, {At(spec, i, j, k)})
  {
    var p := At(spec, i, j, k);
    var path, verb := spec[i].0, spec[i].1[j].0;
    assert p in Objects(spec);
    TagEntry(p, path, verb);
    TagParamTwice(path, verb, Lookup(orig, p));
    OwnersStep(spec, owner0, i, j, k);
    owner := owner0[p := (path, verb)];
  }

  /** The body of the collection loop for one parameter entry. */
  method TagEntry(p: Parameter, path: string, verb: string)
    modifies p
    ensures p.Value() == TagParam(path, verb, old(p.Value()))
  {
    p.methodTag := Some(verb);
    p.endpointTag := Some(path);
  }

  /** Tagging again replaces the earlier annotations. */
  lemma TagParamTwice(path: string, verb: string, v: ParamValue)
    ensures forall path', verb' :: TagParam(path, verb, TagParam(path', verb', v)) == TagParam(path, verb, v)
  {
  }

  /** prompt_example_values: walk the worklist in order, skip every entry
      whose schema already has an example, and ask the operator about each of
      the others; the n-th question is answered by answers[n], and the answer
      is stored under the parameter's name. */
  method PromptExampleValues(worklist: seq<Parameter>, answers: seq<string>) returns (outcome: PromptOutcome)
    requires Promptable(Values(worklist))
    ensures outcome == PromptSpec(Values(worklist), answers)
    ensures outcome.EndOfInput? <==> |answers| < |MissingExample(Values(worklist))|
    ensures outcome.Answered? ==>
      outcome.values.Keys == set v | v in Values(worklist) && v.example.None? :: v.name
  {
    ghost var ws := Values(worklist);
    var values: map<string, string> := map[];
    var prompts: seq<Prompt> := [];
    var used := 0;
    for i := 0 to |worklist|
      invariant used == |MissingExample(ws[..i])| <= |answers|
      invariant values == Answers(MissingExample(ws[..i]), answers)
      invariant forall v :: v in MissingExample(ws[..i]) ==> Tagged(v)
      invariant prompts == Prompts(MissingExample(ws[..i]))
    {
      ghost var done := MissingExample(ws[..i]);
      MissingExampleStep(ws, i);
      var p := worklist[i];
      var name := p.name;
      var schemaType := p.schemaType;
      if p.example.Some? {
        assert MissingExample(ws[..i + 1]) == done;
        continue;
      }
      assert ws[i] in ws;
      var verb := p.methodTag.value;
      var path := p.endpointTag.value;
      if used == |answers| {
        MissingExamplePrefix(ws, i + 1);
        return EndOfInput;
      }
      var answer := answers[used];
      AnswersSnoc(done, ws[i], answers);
      PromptsAppend(done, [ws[i]]);
      assert Prompts([ws[i]]) == [Prompt(name, schemaType, verb, path)];
      used := used + 1;
      values := values[name := answer];
      prompts := prompts + [Prompt(name, schemaType, verb, path)];
      assert MissingExample(ws[..i + 1]) == done + [ws[i]];
      assert values == Answers(done + [ws[i]], answers);
    }
    assert ws[..|worklist|] == ws;
    return Answered(values, prompts);
  }

  /** add_example_values: every parameter whose name has an answer gets that
      answer as its schema example and loses its "method" and "endpoint"
      annotations; nothing else changes.  A parameter entry reachable from
      several places is patched once per place, which the patch tolerates
      because it is idempotent. */
  method AddExampleValues(spec: Paths<Parameter>, values: map<string, string>)
    modifies Objects(spec)
    ensures forall i, j, k :: ValidPos(spec, i, j, k) ==>
      At(spec, i, j, k).Value() == PatchParam(old(At(spec, i, j, k).Value()), values)
    ensures Snapshot(spec) == PatchPaths(old(Snapshot(spec)), values)
  {
    ghost var before := Snapshot(spec);
    ghost var orig := Env(spec);
    ghost var done: set<Parameter> := {};
    var i := 0;
    while i < |spec|
      invariant 0 <= i <= |spec|
      invariant Covered(spec, done, i, 0, 0)
      invariant PatchedSoFar(spec, orig, done, values)
    {
      done := PatchPathItem(spec, values, i, orig, done);
      CoveredNextPath(spec, done, i);
      i := i + 1;
    }
    forall i', j', k' | ValidPos(spec, i', j', k')
      ensures At(spec, i', j', k').Value() == PatchParam(old(At(spec, i', j', k').Value()), values)
    {
      assert At(spec, i', j', k') in done;
    }
    PathsExt(Snapshot(spec), PatchPaths(before, values));
  }

  /** Progress of the patch pass against the values `orig` the entries had
      when it started: the entries in `done` are patched, the others are
      untouched. */
  ghost predicate PatchedSoFar(spec: Paths<Parameter>, orig: map<Parameter, ParamValue>, done: set<Parameter>, values: map<string, string>)
    reads Objects(spec)
  {
    && (forall q :: q in Objects(spec) && q !in done ==> q.Value() == Lookup(orig, q))
    && (forall q :: q in done ==> q in Objects(spec) && q.Value() == PatchParam(Lookup(orig, q), values))
  }

  /** The loop over the methods of path item i. */
  method PatchPathItem(spec: Paths<Parameter>, values: map<string, string>, i: int,
                       ghost orig: map<Parameter, ParamValue>, ghost done0: set<Parameter>)
    returns (ghost done: set<Parameter>)
    requires 0 <= i < |spec|
    requires Covered(spec, done0, i, 0, 0) && PatchedSoFar(spec, orig, done0, values)
    modifies Objects(spec)
    ensures Covered(spec, done, i, |spec[i].1|, 0) && PatchedSoFar(spec, orig, done, values)
    ensures done == done0 + Entries(SlotParams(ItemSlots(spec[i].0, spec[i].1)))
  {
    done := done0;
    var path := spec[i].0;
    var item := spec[i].1;
    var j := 0;
    while j < |item|
      invariant 0 <= j <= |item|
      invariant Covered(spec, done, i, j, 0)
      invariant PatchedSoFar(spec, orig, done, values)
      invariant done == done0 + Entries(SlotParams(ItemSlots(path, item[..j])))
    {
      ItemEntriesStep(path, item, j);
      done := PatchOperation(spec, values, i, j, orig, done);
      j := j + 1;
    }
    assert item[..j] == item;
  }

  /** The body of the loop over the methods of path item i, for method j:
      patch its parameter list when it has one. */
  method PatchOperation(spec: Paths<Parameter>, values: map<string, string>, i: int, j: int,
                        ghost orig: map<Parameter, ParamValue>, ghost done0: set<Parameter>)
    returns (ghost done: set<Parameter>)
    requires 0 <= i < |spec| && 0 <= j < |spec[i].1|
    requires Covered(spec, done0, i, j, 0) && PatchedSoFar(spec, orig, done0, values)
    modifies Objects(spec)
    ensures Covered(spec, done, i, j + 1, 0) && PatchedSoFar(spec, orig, done, values)
    ensures done == done0 + Entries(OpParams(spec[i].1[j].1))
  {
    done := done0;
    if spec[i].1[j].1.parameters.Some? {
      done := PatchParameterList(spec, values, i, j, orig, done);
    }
    CoveredNextOp(spec, done, i, j);
  }

  /** The loop over the parameter list of method j of path item i. */
  method PatchParameterList(spec: Paths<Parameter>, values: map<string, string>, i: int, j: int,
                            ghost orig: map<Parameter, ParamValue>, ghost done0: set<Parameter>)
    returns (ghost done: set<Parameter>)
    requires 0 <= i < |spec| && 0 <= j < |spec[i].1| && spec[i].1[j].1.parameters.Some?
    requires Covered(spec, done0, i, j, 0) && PatchedSoFar(spec, orig, done0, values)
    modifies Objects(spec)
    ensures Covered(spec, done, i, j, |OpParams(spec[i].1[j].1)|) && PatchedSoFar(spec, orig, done, values)
    ensures done == done0 + Entries(OpParams(spec[i].1[j].1))
  {
    done := done0;
    var params := spec[i].1[j].1.parameters.value;
    var k := 0;
    while k < |params|
      invariant 0 <= k <= |params|
      invariant Covered(spec, done, i, j, k)
      invariant PatchedSoFar(spec, orig, done, values)
      invariant done == done0 + Entries(params[..k])
    {
      assert ValidPos(spec, i, j, k) && params[k] == At(spec, i, j, k);
      EntriesSnoc(params, k);
      done := PatchAt(spec, values, i, j, k, orig, done);
      k := k + 1;
    }
    assert params[..k] == params;
  }

  /** One step of the patch pass: patch the entry at (i, j, k) and record it. */
  method PatchAt(spec: Paths<Parameter>, values: map<string, string>, i: int, j: int, k: int,
                 ghost orig: map<Parameter, ParamValue>, ghost done0: set<Parameter>)
    returns (ghost done: set<Parameter>)
    requires ValidPos(spec, i, j, k)
    requires Covered(spec, done0, i, j, k) && PatchedSoFar(spec, orig, done0, values)
    modifies Objects(spec)
    ensures Covered(spec, done, i, j, k + 1) && PatchedSoFar(spec, orig, done, values)
    ensures done == done0 + {At(spec, i, j, k)}
  {
    var p := At(spec, i, j, k);
    assert p in Objects(spec);
    PatchEntry(p, values);
    PatchParamTwice(Lookup(orig, p), values);
    CoveredStep(spec, done0, done0 + {p}, i, j, k);
    done := done0 + {p};
  }

  /** The entries a sequence of parameters refers to. */
  ghost function Entries(s: seq<Parameter>): set<Parameter>
  {
    set p | p in s
  }

  lemma EntriesAppend(s: seq<Parameter>, t: seq<Parameter>)
    ensures Entries(s + t) == Entries(s) + Entries(t)
  {
  }

  lemma ItemEntriesStep(path: string, item: PathItem<Parameter>, j: int)
    requires 0 <= j < |item|
    ensures Entries(SlotParams(ItemSlots(path, item[..j + 1])))
         == Entries(SlotParams(ItemSlots(path, item[..j]))) + Entries(OpParams(item[j].1))
  {
    ItemSlotsStep(path, item, j);
    EntriesAppend(SlotParams(ItemSlots(path, item[..j])), OpParams(item[j].1));
  }

  lemma EntriesSnoc(s: seq<Parameter>, k: int)
    requires 0 <= k < |s|
    ensures Entries(s[..k + 1]) == Entries(s[..k]) + {s[k]}
  {
    PrefixSnoc(s, k);
    EntriesAppend(s[..k], [s[k]]);
  }

  /** The body of the patch loop for one parameter entry. */
  method PatchEntry(p: Parameter, values: map<string, string>)
    modifies p
    ensures p.Value() == PatchParam(old(p.Value()), values)
  {
    var name := p.name;
    if name in values {
      p.example := Some(values[name]);
      p.methodTag := None;
      p.endpointTag := None;
    }
  }

  lemma PatchParamTwice(v: ParamValue, values: map<string, string>)
    ensures PatchParam(PatchParam(v, values), values) == PatchParam(v, values)
  {
  }

  /** The snapshot depends on the parameter entries' fields only. */
  twostate lemma SnapshotFrame(spec: Paths<Parameter>)
    requires unchanged(Objects(spec))
    ensures Snapshot(spec) == old(Snapshot(spec))
  {
  }

  /** main, from the collection pass on: collect, prompt, stop when no
      answer was collected (or the operator's input ended), otherwise patch
      and hand the patched document to the writer. */
  method Run(spec: Paths<Parameter>, answers: seq<string>) returns (outcome: RunOutcome)
    requires IsTree(spec)
    modifies Objects(spec)
    ensures outcome == RunSpec(old(Snapshot(spec)), answers)
    ensures outcome.Written? ==> Snapshot(spec) == outcome.doc
    ensures !outcome.Written? ==> Snapshot(spec) == TagPaths(old(Snapshot(spec)))
  {
    ghost var original := Snapshot(spec);
    ghost var tagged := TagPaths(original);
    var worklist := CollectParameters(spec);
    assert Snapshot(spec) == tagged;
    SnapshotWorklist(spec);
    TaggedWorklist(original);
    assert Values(worklist) == Worklist(tagged);
    ghost var collected := Snapshot(spec);
    label collectedState:
    var prompted := PromptExampleValues(worklist, answers);
    assert prompted == PromptSpec(Worklist(tagged), answers);
    SnapshotFrame@collectedState(spec);
    match prompted
    case EndOfInput =>
      outcome := Aborted;
    case Answered(values, prompts) =>
      if |values| == 0 {
        outcome := NothingToDo;
        return;
      }
      AddExampleValues(spec, values);
      assert Snapshot(spec) == PatchPaths(collected, values);
      outcome := Written(values, prompts, Snapshot(spec));
  }
}
