/** The bound on parsed metadata (mmcrawler_datasets/safe_io.py:166-179): an explicit stack that must
    agree with the recursive node count and nesting depth. */
module JsonComplexity {
  const MAX_JSON_DEPTH: nat := 32
  const MAX_JSON_NODES: nat := 250_000

  /** Keys are not counted, so an object is its values. */
  datatype Json = Object(values: seq<Json>) | Array(items: seq<Json>) | Scalar

  function Children(v: Json): (r: seq<Json>)
    ensures forall c :: c in r ==> c < v
  {
    match v
    case Object(values) => values
    case Array(items) => items
    case Scalar => []
  }

  function Count(v: Json): nat {
    1 + match v case Object(s) => CountAll(s) case Array(s) => CountAll(s) case Scalar => 0
  }

  function CountAll(s: seq<Json>): nat { if s == [] then 0 else Count(s[0]) + CountAll(s[1..]) }

  function Depth(v: Json): nat {
    1 + match v case Object(s) => DepthAll(s) case Array(s) => DepthAll(s) case Scalar => 0
  }

  function DepthAll(s: seq<Json>): nat {
    if s == [] then 0
    else if Depth(s[0]) >= DepthAll(s[1..]) then Depth(s[0]) else DepthAll(s[1..])
  }

  /** What the limits mean. */
  predicate Within(v: Json) { Count(v) <= MAX_JSON_NODES && Depth(v) <= MAX_JSON_DEPTH }

  datatype Pending = Pending(value: Json, depth: nat)

  function Below(s: seq<Json>, depth: nat): seq<Pending> {
    seq(|s|, i requires 0 <= i < |s| => Pending(s[i], depth))
  }

  function Total(pending: seq<Pending>): nat {
    if pending == [] then 0 else Count(pending[0].value) + Total(pending[1..])
  }

  predicate Shallow(pending: seq<Pending>) {
    forall p :: p in pending ==> p.depth - 1 + Depth(p.value) <= MAX_JSON_DEPTH
  }

  /** Visiting the k-th pending value: it is replaced by its children, one level down. */
  function Visit(pending: seq<Pending>, k: nat): seq<Pending>
    requires k < |pending|
  {
    pending[..k] + pending[k + 1..] + Below(Children(pending[k].value), pending[k].depth + 1)
  }

  lemma {:induction false} TotalAppend(a: seq<Pending>, b: seq<Pending>)
    ensures Total(a + b) == Total(a) + Total(b)
  {
    if a == [] {
      assert a + b == b;
    } else {
      assert (a + b)[1..] == a[1..] + b;
      TotalAppend(a[1..], b);
    }
  }

  lemma {:induction false} TotalBelow(s: seq<Json>, depth: nat)
    ensures Total(Below(s, depth)) == CountAll(s)
  {
    if s != [] {
      assert Below(s, depth)[1..] == Below(s[1..], depth);
      TotalBelow(s[1..], depth);
    }
  }

  lemma {:induction false} DepthAllIsMax(s: seq<Json>, limit: nat)
    ensures DepthAll(s) <= limit <==> forall i :: 0 <= i < |s| ==> Depth(s[i]) <= limit
  {
    if s != [] {
      DepthAllIsMax(s[1..], limit);
      if DepthAll(s) <= limit {
        forall i | 0 <= i < |s| ensures Depth(s[i]) <= limit { if i > 0 { assert s[i] == s[1..][i - 1]; } }
      }
    }
  }

  lemma RemoveTotal(pending: seq<Pending>, k: nat)
    requires k < |pending|
    ensures Total(pending) == Total(pending[..k] + pending[k + 1..]) + Count(pending[k].value)
  {
    hide Count, Total;
    var head, tail := [pending[k]], pending[k + 1..];
    assert pending == pending[..k] + (head + tail);
    TotalAppend(pending[..k], head + tail);
    TotalAppend(head, tail);
    TotalAppend(pending[..k], tail);
    TotalOne(pending[k]);
  }

  lemma TotalOne(p: Pending)
    ensures Total([p]) == Count(p.value)
  {
    assert [p][1..] == [];
  }

  lemma VisitTotal(pending: seq<Pending>, k: nat)
    requires k < |pending|
    ensures Total(Visit(pending, k)) == Total(pending) - 1
  {
    hide Total;
    var p := pending[k];
    RemoveTotal(pending, k);
    TotalAppend(pending[..k] + pending[k + 1..], Below(Children(p.value), p.depth + 1));
    TotalBelow(Children(p.value), p.depth + 1);
  }

  lemma VisitShallow(pending: seq<Pending>, k: nat)
    requires k < |pending| && pending[k].depth <= MAX_JSON_DEPTH
    ensures Shallow(Visit(pending, k)) <==> Shallow(pending)
  {
    var p := pending[k];
    var children := Children(p.value);
    var below := Below(children, p.depth + 1);
    assert Depth(p.value) == 1 + DepthAll(children);
    DepthAllIsMax(children, MAX_JSON_DEPTH - p.depth);
    assert pending == pending[..k] + [p] + pending[k + 1..];
    assert forall i :: 0 <= i < |children| ==> below[i] == Pending(children[i], p.depth + 1);
    assert forall i :: 0 <= i < |children| ==> below[i] in below;
    assert p in pending;
  }

  /** The verdict when `choose` decides what to visit next. */
  ghost function Verdict(pending: seq<Pending>, nodes: nat, choose: seq<Pending> -> nat): bool
    decreases Total(pending)
  {
    if pending == [] then true
    else
      var k := choose(pending) % |pending|;
      VisitTotal(pending, k);
      && nodes + 1 <= MAX_JSON_NODES && pending[k].depth <= MAX_JSON_DEPTH
      && Verdict(Visit(pending, k), nodes + 1, choose)
  }

  lemma {:induction false} VerdictIs(pending: seq<Pending>, nodes: nat, choose: seq<Pending> -> nat)
    requires nodes <= MAX_JSON_NODES
    ensures Verdict(pending, nodes, choose) <==> nodes + Total(pending) <= MAX_JSON_NODES && Shallow(pending)
    decreases Total(pending)
  {
    if pending != [] {
      var k := choose(pending) % |pending|;
      VisitTotal(pending, k);
      if nodes + 1 <= MAX_JSON_NODES {
        if pending[k].depth <= MAX_JSON_DEPTH {
          VisitShallow(pending, k);
          VerdictIs(Visit(pending, k), nodes + 1, choose);
        } else {
          assert pending[k] in pending;
        }
      }
    }
  }

  /** Whatever order the values are visited in, the traversal accepts exactly the values within both
      limits. */
  lemma AnyOrderAccepts(v: Json, choose: seq<Pending> -> nat)
    ensures Verdict([Pending(v, 1)], 0, choose) <==> Within(v)
  {
    VerdictIs([Pending(v, 1)], 0, choose);
    assert Total([Pending(v, 1)]) == Count(v) + Total([]);
    assert Pending(v, 1) in [Pending(v, 1)];
  }

  lemma AtStart(value: Json)
    ensures Total([Pending(value, 1)]) == Count(value)
    ensures Shallow([Pending(value, 1)]) <==> Depth(value) <= MAX_JSON_DEPTH
  {
    TotalOne(Pending(value, 1));
    assert Pending(value, 1) in [Pending(value, 1)];
  }

  lemma AtEnd()
    ensures Total([]) == 0 && Shallow([])
  {}

  lemma TooDeep(pending: seq<Pending>, k: nat)
    requires k < |pending| && pending[k].depth > MAX_JSON_DEPTH
    ensures !Shallow(pending)
  {
    assert pending[k] in pending;
  }

  datatype Error = TooManyValues | NestedTooDeeply

  datatype Outcome = Accepted | Rejected(error: Error)

  method ValidateComplexity(value: Json) returns (outcome: Outcome)
    ensures outcome.Accepted? <==> Within(value)
    ensures outcome == Rejected(TooManyValues) ==> Count(value) > MAX_JSON_NODES
    ensures outcome == Rejected(NestedTooDeeply) ==> Depth(value) > MAX_JSON_DEPTH
  {
    hide Total, Shallow, Count, Depth;
    var pending := [Pending(value, 1)];
    var nodes := 0;
    AtStart(value);
    AtEnd();
    while pending != []
      invariant nodes + Total(pending) == Count(value) && nodes <= MAX_JSON_NODES
      invariant Shallow(pending) <==> Depth(value) <= MAX_JSON_DEPTH
      decreases Total(pending)
    {
      var last := |pending| - 1;
      var current := pending[last];
      VisitTotal(pending, last);
      nodes := nodes + 1;
      if nodes > MAX_JSON_NODES {
        return Rejected(TooManyValues);
      }
      if current.depth > MAX_JSON_DEPTH {
        TooDeep(pending, last);
        return Rejected(NestedTooDeeply);
      }
      VisitShallow(pending, last);
      ghost var visited := Visit(pending, last);
      pending := pending[..last];
      match current.value {
        case Object(values) => pending := pending + Below(values, current.depth + 1);
        case Array(items) => pending := pending + Below(items, current.depth + 1);
        case Scalar =>
      }
      assert pending == visited;
    }
    return Accepted;
  }
}
