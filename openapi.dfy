/** The part of an OpenAPI document that the example adder walks:
    paths -> path item -> operation -> parameters list.

    JSON objects keep their insertion order, so every object on the way is an
    ordered sequence of (key, value) pairs.  The source never changes anything
    above the parameter entries, so that part of the tree is a value; the
    parameter entries themselves are updated in place and are therefore objects
    (class Parameter).  The tree is generic in what sits at the leaves: a
    document being processed is a Paths<Parameter>, the document written out
    is a Paths<ParamValue>. */
module OpenApi {

  datatype Option<+T> = None | Some(value: T)

  /** One parameter entry as plain data: its "name", its "schema"."type", its
      optional "schema"."example", and the two annotation keys "method" and
      "endpoint" that the collection pass attaches to it. */
  datatype ParamValue = ParamValue(
    name: string,
    schemaType: string,
    example: Option<string>,
    methodTag: Option<string>,
    endpointTag: Option<string>)

  /** An operation; `parameters` is None when the operation has no
      "parameters" key. */
  datatype Operation<P> = Operation(parameters: Option<seq<P>>)

  /** A path item: HTTP method key -> operation. */
  type PathItem<P> = seq<(string, Operation<P>)>

  /** The "paths" object: path key -> path item. */
  type Paths<P> = seq<(string, PathItem<P>)>

  /** A parameter together with the path key and method key that own it. */
  datatype Slot<P> = Slot(path: string, verb: string, param: P)

  function OpParams<P>(op: Operation<P>): seq<P>
  {
    if op.parameters.Some? then op.parameters.value else []
  }

  /** (i, j, k) names the k-th parameter of the j-th operation of the i-th path. */
  predicate ValidPos<P>(ps: Paths<P>, i: int, j: int, k: int)
  {
    0 <= i < |ps| && 0 <= j < |ps[i].1| && 0 <= k < |OpParams(ps[i].1[j].1)|
  }

  function At<P>(ps: Paths<P>, i: int, j: int, k: int): P
    requires ValidPos(ps, i, j, k)
  {
    OpParams(ps[i].1[j].1)[k]
  }

  /** Everything of a document except its parameter entries: the path keys,
      the method keys, and for each operation whether it has a "parameters"
      key and how long that list is. */
  function Shape<P>(ps: Paths<P>): seq<(string, seq<(string, Option<nat>)>)>
  {
    seq(|ps|, i requires 0 <= i < |ps| =>
      (ps[i].0, seq(|ps[i].1|, j requires 0 <= j < |ps[i].1| =>
        (ps[i].1[j].0,
         if ps[i].1[j].1.parameters.Some? then Some(|ps[i].1[j].1.parameters.value|) else None))))
  }

  /** Documents of the same shape have the same parameter positions. */
  lemma ShapeValidPos<P, Q>(a: Paths<P>, b: Paths<Q>, i: int, j: int, k: int)
    requires Shape(a) == Shape(b)
    ensures ValidPos(a, i, j, k) <==> ValidPos(b, i, j, k)
  {
    assert |a| == |Shape(a)| == |b|;
    if 0 <= i < |a| {
      assert Shape(a)[i].1 == Shape(b)[i].1;
      assert |a[i].1| == |Shape(a)[i].1| == |b[i].1|;
      if 0 <= j < |a[i].1| {
        assert Shape(a)[i].1[j] == Shape(b)[i].1[j];
      }
    }
  }

  /** Two documents are equal when they have the same shape and the same
      parameter entry at every position. */
  lemma PathsExt<P>(a: Paths<P>, b: Paths<P>)
    requires Shape(a) == Shape(b)
    requires forall i, j, k :: ValidPos(a, i, j, k) ==> ValidPos(b, i, j, k) && At(a, i, j, k) == At(b, i, j, k)
    ensures a == b
  {
    assert |a| == |Shape(a)| == |b|;
    forall i | 0 <= i < |a|
      ensures a[i] == b[i]
    {
      assert Shape(a)[i] == Shape(b)[i];
      assert |a[i].1| == |Shape(a)[i].1| == |b[i].1|;
      forall j | 0 <= j < |a[i].1|
        ensures a[i].1[j] == b[i].1[j]
      {
        assert Shape(a)[i].1[j] == Shape(b)[i].1[j];
        var oa, ob := a[i].1[j].1, b[i].1[j].1;
        if oa.parameters.Some? {
          assert ob.parameters.Some?;
          forall k | 0 <= k < |oa.parameters.value|
            ensures oa.parameters.value[k] == ob.parameters.value[k]
          {
            assert ValidPos(a, i, j, k);
          }
          assert oa.parameters.value == ob.parameters.value;
        }
        assert oa == ob;
      }
      assert a[i].1 == b[i].1;
    }
  }

  function MapOp<P, Q>(path: string, verb: string, op: Operation<P>, f: (string, string, P) -> Q): Operation<Q>
  {
    match op.parameters
    case None => Operation(None)
    case Some(params) =>
      Operation(Some(seq(|params|, k requires 0 <= k < |params| => f(path, verb, params[k]))))
  }

  function MapItem<P, Q>(path: string, item: PathItem<P>, f: (string, string, P) -> Q): PathItem<Q>
  {
    seq(|item|, j requires 0 <= j < |item| => (item[j].0, MapOp(path, item[j].0, item[j].1, f)))
  }

  /** Replace every parameter entry by `f` of its path key, its method key and
      itself, leaving everything else as it is. */
  function MapPaths<P, Q>(ps: Paths<P>, f: (string, string, P) -> Q): (r: Paths<Q>)
    ensures Shape(r) == Shape(ps)
    ensures forall i, j, k :: ValidPos(r, i, j, k) <==> ValidPos(ps, i, j, k)
    ensures forall i, j, k :: ValidPos(ps, i, j, k) ==>
      ValidPos(r, i, j, k) && At(r, i, j, k) == f(ps[i].0, ps[i].1[j].0, At(ps, i, j, k))
  {
    var r := seq(|ps|, i requires 0 <= i < |ps| => (ps[i].0, MapItem(ps[i].0, ps[i].1, f)));
    assert Shape(r) == Shape(ps) by {
      forall i | 0 <= i < |ps|
        ensures Shape(r)[i] == Shape(ps)[i]
      {
        assert Shape(r)[i].1 == Shape(ps)[i].1;
      }
    }
    forall i, j, k
      ensures ValidPos(r, i, j, k) <==> ValidPos(ps, i, j, k)
    {
      ShapeValidPos(r, ps, i, j, k);
    }
    r
  }

  // ---------------------------------------------------------------------
  // Flattening: path after path, method after method, parameter after
  // parameter, in document order.

  function OpSlots<P>(path: string, verb: string, params: seq<P>): seq<Slot<P>>
  {
    seq(|params|, k requires 0 <= k < |params| => Slot(path, verb, params[k]))
  }

  function ItemSlots<P>(path: string, item: PathItem<P>): seq<Slot<P>>
  {
    if |item| == 0 then []
    else ItemSlots(path, item[..|item| - 1]) + OpSlots(path, item[|item| - 1].0, OpParams(item[|item| - 1].1))
  }

  function Flat<P>(ps: Paths<P>): seq<Slot<P>>
  {
    if |ps| == 0 then []
    else Flat(ps[..|ps| - 1]) + ItemSlots(ps[|ps| - 1].0, ps[|ps| - 1].1)
  }

  function SlotParams<P>(ss: seq<Slot<P>>): seq<P>
  {
    seq(|ss|, n requires 0 <= n < |ss| => ss[n].param)
  }

  function MapSlots<P, Q>(ss: seq<Slot<P>>, f: (string, string, P) -> Q): seq<Slot<Q>>
  {
    seq(|ss|, n requires 0 <= n < |ss| => Slot(ss[n].path, ss[n].verb, f(ss[n].path, ss[n].verb, ss[n].param)))
  }

  lemma {:induction false} ItemSlotsComplete<P>(path: string, item: PathItem<P>, j: int, k: int)
    requires 0 <= j < |item| && 0 <= k < |OpParams(item[j].1)|
    ensures Slot(path, item[j].0, OpParams(item[j].1)[k]) in ItemSlots(path, item)
  {
    var last := |item| - 1;
    if j < last {
      ItemSlotsComplete(path, item[..last], j, k);
    } else {
      assert OpSlots(path, item[j].0, OpParams(item[j].1))[k] == Slot(path, item[j].0, OpParams(item[j].1)[k]);
    }
  }

  /** Every parameter of every operation that has a parameters list appears in
      the flattening, with its owning path key and method key. */
  lemma {:induction false} FlatComplete<P>(ps: Paths<P>, i: int, j: int, k: int)
    requires ValidPos(ps, i, j, k)
    ensures Slot(ps[i].0, ps[i].1[j].0, At(ps, i, j, k)) in Flat(ps)
  {
    var last := |ps| - 1;
    if i < last {
      assert ValidPos(ps[..last], i, j, k);
      FlatComplete(ps[..last], i, j, k);
    } else {
      ItemSlotsComplete(ps[i].0, ps[i].1, j, k);
    }
  }

  lemma {:induction false} ItemSlotsSound<P>(path: string, item: PathItem<P>, n: int)
    requires 0 <= n < |ItemSlots(path, item)|
    ensures exists j, k :: (0 <= j < |item| && 0 <= k < |OpParams(item[j].1)| &&
      ItemSlots(path, item)[n] == Slot(path, item[j].0, OpParams(item[j].1)[k]))
  {
    var last := |item| - 1;
    var front := ItemSlots(path, item[..last]);
    if n < |front| {
      ItemSlotsSound(path, item[..last], n);
      var j, k :| 0 <= j < |item[..last]| && 0 <= k < |OpParams(item[..last][j].1)| &&
        front[n] == Slot(path, item[..last][j].0, OpParams(item[..last][j].1)[k]);
      assert item[..last][j] == item[j];
    } else {
      var k := n - |front|;
      assert ItemSlots(path, item)[n] == Slot(path, item[last].0, OpParams(item[last].1)[k]);
    }
  }

  /** Every entry of the flattening is some parameter of the document, with
      its owning path key and method key. */
  lemma {:induction false} FlatSound<P>(ps: Paths<P>, n: int)
    requires 0 <= n < |Flat(ps)|
    ensures exists i, j, k :: ValidPos(ps, i, j, k) && Flat(ps)[n] == Slot(ps[i].0, ps[i].1[j].0, At(ps, i, j, k))
  {
    var last := |ps| - 1;
    var front := Flat(ps[..last]);
    if n < |front| {
      FlatSound(ps[..last], n);
      var i, j, k :| ValidPos(ps[..last], i, j, k) && front[n] == Slot(ps[..last][i].0, ps[..last][i].1[j].0, At(ps[..last], i, j, k));
      assert ps[..last][i] == ps[i];
      assert ValidPos(ps, i, j, k);
    } else {
      ItemSlotsSound(ps[last].0, ps[last].1, n - |front|);
      var j, k :| 0 <= j < |ps[last].1| && 0 <= k < |OpParams(ps[last].1[j].1)| &&
        ItemSlots(ps[last].0, ps[last].1)[n - |front|] == Slot(ps[last].0, ps[last].1[j].0, OpParams(ps[last].1[j].1)[k]);
      assert ValidPos(ps, last, j, k);
    }
  }

  lemma SlotParamsAppend<P>(a: seq<Slot<P>>, b: seq<Slot<P>>)
    ensures SlotParams(a + b) == SlotParams(a) + SlotParams(b)
  {
  }

  lemma MapSlotsAppend<P, Q>(a: seq<Slot<P>>, b: seq<Slot<P>>, f: (string, string, P) -> Q)
    ensures MapSlots(a + b, f) == MapSlots(a, f) + MapSlots(b, f)
  {
  }

  lemma {:induction false} ItemSlotsMap<P, Q>(path: string, item: PathItem<P>, f: (string, string, P) -> Q)
    ensures ItemSlots(path, MapItem(path, item, f)) == MapSlots(ItemSlots(path, item), f)
  {
    if |item| > 0 {
      var last := |item| - 1;
      var mapped := MapItem(path, item, f);
      assert mapped[..last] == MapItem(path, item[..last], f);
      ItemSlotsMap(path, item[..last], f);
      var op := item[last].1;
      assert OpSlots(path, item[last].0, OpParams(mapped[last].1)) == MapSlots(OpSlots(path, item[last].0, OpParams(op)), f);
      MapSlotsAppend(ItemSlots(path, item[..last]), OpSlots(path, item[last].0, OpParams(op)), f);
    }
  }

  /** Flattening a mapped document is mapping its flattening. */
  lemma {:induction false} FlatMap<P, Q>(ps: Paths<P>, f: (string, string, P) -> Q)
    ensures Flat(MapPaths(ps, f)) == MapSlots(Flat(ps), f)
  {
    if |ps| > 0 {
      var last := |ps| - 1;
      var mapped := MapPaths(ps, f);
      assert mapped[..last] == MapPaths(ps[..last], f);
      FlatMap(ps[..last], f);
      ItemSlotsMap(ps[last].0, ps[last].1, f);
      MapSlotsAppend(Flat(ps[..last]), ItemSlots(ps[last].0, ps[last].1), f);
    }
  }

  // ---------------------------------------------------------------------
  // The document as the program holds it: parameter entries are mutable.

  /** A parameter entry (a JSON object the source updates in place). */
  class Parameter {
    var name: string
    var schemaType: string
    var example: Option<string>
    var methodTag: Option<string>
    var endpointTag: Option<string>

    function Value(): ParamValue
      reads this
    {
      ParamValue(name, schemaType, example, methodTag, endpointTag)
    }
  }

  /** The parameter entries a document refers to. */
  function Objects(ps: Paths<Parameter>): set<Parameter>
  {
    set i, j, k | 0 <= i < |ps| && 0 <= j < |ps[i].1| && 0 <= k < |OpParams(ps[i].1[j].1)| :: At(ps, i, j, k)
  }

  function Env(ps: Paths<Parameter>): map<Parameter, ParamValue>
    reads Objects(ps)
  {
    map p | p in Objects(ps) :: p.Value()
  }

  function Lookup(env: map<Parameter, ParamValue>, p: Parameter): ParamValue
  {
    if p in env then env[p] else ParamValue([], [], None, None, None)
  }

  /** The document as plain data in the current state: what would be serialised. */
  function Snapshot(ps: Paths<Parameter>): (d: Paths<ParamValue>)
    reads Objects(ps)
    ensures Shape(d) == Shape(ps)
    ensures forall i, j, k :: ValidPos(d, i, j, k) <==> ValidPos(ps, i, j, k)
    ensures forall i, j, k :: ValidPos(ps, i, j, k) ==> At(d, i, j, k) == At(ps, i, j, k).Value()
  {
    MapPaths(ps, LookupIn(Env(ps)))
  }

  function LookupIn(env: map<Parameter, ParamValue>): (string, string, Parameter) -> ParamValue
  {
    (path: string, verb: string, p: Parameter) => Lookup(env, p)
  }

  /** No parameter entry is referenced from two places: the document is a tree,
      as every document parsed from JSON text is. */
  ghost predicate IsTree(ps: Paths<Parameter>)
  {
    forall i, j, k, i', j', k' {:trigger EntryAt(ps, i, j, k), EntryAt(ps, i', j', k')} ::
      ValidPos(ps, i, j, k) && ValidPos(ps, i', j', k') && EntryAt(ps, i, j, k) == EntryAt(ps, i', j', k') ==>
        i == i' && j == j' && k == k'
  }

  /** The parameter entry at a position; the same as `At`, under a name of
      its own so that the tree property is only brought in where a proof asks
      for it. */
  ghost function EntryAt(ps: Paths<Parameter>, i: int, j: int, k: int): Parameter
    requires ValidPos(ps, i, j, k)
  {
    At(ps, i, j, k)
  }
}
