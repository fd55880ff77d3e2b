/**
 `isJsonValue`: a worklist over an object graph that may be cyclic or shared, and the finite
 trees it accepts.
*/
module JsonGraph {
  import opened Common

  type Id = nat

  /** A JavaScript value; objects are references into the heap. */
  datatype Value = Undefined | Null | StringValue | BooleanValue | NumberValue(finite: bool) | Unsupported | Ref(id: Id)

  /** Arrays may have holes (`None`); exotic objects are buffers, dates and class instances. */
  datatype Node = ArrayNode(slots: seq<Option<Value>>) | PlainNode(values: seq<Value>) | ExoticNode

  type Heap = map<Id, Node>

  /** The own values of a node, unless it cannot be represented as JSON. */
  function Children(node: Node): Option<seq<Value>> {
    match node
    case ExoticNode => None
    case PlainNode(values) => Some(values)
    case ArrayNode(slots) =>
      if exists i | 0 <= i < |slots| :: slots[i].None? then None
      else Some(seq(|slots|, i requires 0 <= i < |slots| && slots[i].Some? => slots[i].value))
  }

  predicate Valid(h: Heap, v: Value) {
    v.Ref? ==> v.id in h
  }

  /** References lead to objects. */
  predicate Closed(h: Heap) {
    forall id <- h ::
      match h[id]
      case ArrayNode(slots) => forall s <- slots :: s.Some? ==> Valid(h, s.value)
      case PlainNode(values) => forall v <- values :: Valid(h, v)
      case ExoticNode => true
  }

  predicate JsonLeaf(v: Value) {
    v.Null? || v.StringValue? || v.BooleanValue? || (v.NumberValue? && v.finite)
  }

  // ---------- finite trees ----------

  datatype Tree = Leaf | Branch(id: Id, subtrees: seq<Tree>)

  /** `t` is the complete unfolding of `v`. */
  ghost predicate Unfolds(h: Heap, v: Value, t: Tree)
    decreases t
  {
    match t
    case Leaf => JsonLeaf(v)
    case Branch(id, subtrees) =>
      && v == Ref(id) && id in h && Children(h[id]).Some?
      && |subtrees| == |Children(h[id]).value|
      && forall i | 0 <= i < |subtrees| :: Unfolds(h, Children(h[id]).value[i], subtrees[i])
  }

  /** The objects a tree visits, with multiplicity. */
  ghost function Visits(t: Tree): multiset<Id> {
    match t
    case Leaf => multiset{}
    case Branch(id, subtrees) => multiset{id} + VisitsAll(subtrees)
  }

  ghost function VisitsAll(ts: seq<Tree>): multiset<Id> {
    if ts == [] then multiset{} else Visits(ts[0]) + VisitsAll(ts[1..])
  }

  ghost predicate Once(m: multiset<Id>) {
    forall id :: m[id] <= 1
  }

  /** The graph under `v` is a finite tree of JSON nodes, no object being reached by two edges. */
  ghost predicate IsJsonTree(h: Heap, v: Value) {
    exists t: Tree :: Unfolds(h, v, t) && Once(Visits(t))
  }

  // ---------- forests: the meaning of the worklist ----------

  ghost predicate IsForest(h: Heap, vs: seq<Value>, seen: set<Id>, ts: seq<Tree>) {
    && |ts| == |vs|
    && (forall i | 0 <= i < |vs| :: Unfolds(h, vs[i], ts[i]))
    && Once(VisitsAll(ts))
    && forall id <- seen :: id !in VisitsAll(ts)
  }

  /** What is left to check: the stacked values unfold to disjoint trees over unseen objects. */
  ghost predicate Pending(h: Heap, stack: seq<Value>, seen: set<Id>) {
    exists ts: seq<Tree> :: IsForest(h, stack, seen, ts)
  }

  lemma {:induction false} VisitsAppend(a: seq<Tree>, b: seq<Tree>)
    ensures VisitsAll(a + b) == VisitsAll(a) + VisitsAll(b)
  {
    if a == [] {
      assert a + b == b;
    } else {
      assert (a + b)[1..] == a[1..] + b;
      VisitsAppend(a[1..], b);
    }
  }

  lemma VisitsOne(t: Tree)
    ensures VisitsAll([t]) == Visits(t)
  {
    assert [t][1..] == [];
    assert VisitsAll([]) == multiset{};
  }

  lemma PendingRoot(h: Heap, v: Value)
    ensures Pending(h, [v], {}) <==> IsJsonTree(h, v)
  {
    if Pending(h, [v], {}) {
      var ts :| IsForest(h, [v], {}, ts);
      assert ts == [ts[0]];
      VisitsOne(ts[0]);
    }
    if t: Tree :| Unfolds(h, v, t) && Once(Visits(t)) {
      VisitsOne(t);
      assert IsForest(h, [v], {}, [t]);
    }
  }

  lemma PendingEmpty(h: Heap, seen: set<Id>)
    ensures Pending(h, [], seen)
  {
    assert IsForest(h, [], seen, []);
  }

  /** A forest over `below + [top]` splits into one over `below` and a tree for `top`. */
  lemma SplitTop(h: Heap, below: seq<Value>, top: Value, seen: set<Id>, ts: seq<Tree>)
    requires IsForest(h, below + [top], seen, ts)
    ensures ts == ts[..|below|] + [ts[|below|]]
    ensures Unfolds(h, top, ts[|below|])
    ensures forall i | 0 <= i < |below| :: Unfolds(h, below[i], ts[i])
    ensures VisitsAll(ts) == VisitsAll(ts[..|below|]) + Visits(ts[|below|])
  {
    var n := |below|;
    assert ts == ts[..n] + [ts[n]];
    VisitsAppend(ts[..n], [ts[n]]);
    VisitsOne(ts[n]);
    assert (below + [top])[n] == top;
    forall i | 0 <= i < n ensures Unfolds(h, below[i], ts[i]) {
      assert (below + [top])[i] == below[i];
    }
  }

  lemma AddTop(h: Heap, below: seq<Value>, top: Value, seen: set<Id>, trunk: seq<Tree>, t: Tree)
    requires |trunk| == |below| && forall i | 0 <= i < |below| :: Unfolds(h, below[i], trunk[i])
    requires Unfolds(h, top, t)
    requires Once(VisitsAll(trunk) + Visits(t))
    requires forall x <- seen :: x !in VisitsAll(trunk) + Visits(t)
    ensures Pending(h, below + [top], seen)
  {
    VisitsAppend(trunk, [t]);
    VisitsOne(t);
    assert IsForest(h, below + [top], seen, trunk + [t]);
  }

  /** A primitive on top is dropped. */
  lemma PopLeaf(h: Heap, below: seq<Value>, top: Value, seen: set<Id>)
    requires JsonLeaf(top)
    ensures Pending(h, below + [top], seen) <==> Pending(h, below, seen)
  {
    var n := |below|;
    if Pending(h, below + [top], seen) {
      var ts :| IsForest(h, below + [top], seen, ts);
      SplitTop(h, below, top, seen, ts);
      assert ts[n] == Leaf && VisitsAll(ts) == VisitsAll(ts[..n]);
      assert IsForest(h, below, seen, ts[..n]);
    }
    if Pending(h, below, seen) {
      var ts :| IsForest(h, below, seen, ts);
      assert VisitsAll(ts) + Visits(Leaf) == VisitsAll(ts);
      AddTop(h, below, top, seen, ts, Leaf);
    }
  }

  /** A value that is no JSON leaf, a node without JSON children, or an object seen before: no forest. */
  lemma PopRefused(h: Heap, below: seq<Value>, top: Value, seen: set<Id>)
    requires !JsonLeaf(top) && (!top.Ref? || top.id in seen || top.id !in h || Children(h[top.id]).None?)
    ensures !Pending(h, below + [top], seen)
  {
    if ts: seq<Tree> :| IsForest(h, below + [top], seen, ts) {
      SplitTop(h, below, top, seen, ts);
      VisitsRoot(ts[|below|]);
      assert false;
    }
  }

  lemma VisitsRoot(t: Tree)
    ensures t.Branch? ==> t.id in Visits(t)
  {
  }

  /** An unseen object on top is replaced by its children and becomes seen. */
  lemma PopObject(h: Heap, below: seq<Value>, id: Id, seen: set<Id>)
    requires id in h && id !in seen && Children(h[id]).Some?
    ensures Pending(h, below + [Ref(id)], seen) <==> Pending(h, below + Children(h[id]).value, seen + {id})
  {
    if Pending(h, below + [Ref(id)], seen) {
      var ts :| IsForest(h, below + [Ref(id)], seen, ts);
      OpenTop(h, below, id, seen, ts);
    }
    if Pending(h, below + Children(h[id]).value, seen + {id}) {
      var ts :| IsForest(h, below + Children(h[id]).value, seen + {id}, ts);
      CloseTop(h, below, id, seen, ts);
    }
  }

  lemma OpenTop(h: Heap, below: seq<Value>, id: Id, seen: set<Id>, ts: seq<Tree>)
    requires id in h && Children(h[id]).Some?
    requires IsForest(h, below + [Ref(id)], seen, ts)
    ensures Pending(h, below + Children(h[id]).value, seen + {id})
  {
    var n := |below|;
    SplitTop(h, below, Ref(id), seen, ts);
    var subtrees := ts[n].subtrees;
    var unpacked := ts[..n] + subtrees;
    VisitsAppend(ts[..n], subtrees);
    assert VisitsAll(ts) == VisitsAll(unpacked) + multiset{id};
    forall x ensures VisitsAll(unpacked)[x] <= 1 && (x in seen + {id} ==> x !in VisitsAll(unpacked)) {
      assert VisitsAll(ts)[x] == VisitsAll(unpacked)[x] + multiset{id}[x];
    }
    assert IsForest(h, below + Children(h[id]).value, seen + {id}, unpacked);
  }

  /** The two halves of a forest over `below + children`. */
  lemma SplitChildren(h: Heap, below: seq<Value>, children: seq<Value>, seen: set<Id>, ts: seq<Tree>)
    requires IsForest(h, below + children, seen, ts)
    ensures ts == ts[..|below|] + ts[|below|..]
    ensures forall i | 0 <= i < |below| :: Unfolds(h, below[i], ts[..|below|][i])
    ensures forall i | 0 <= i < |children| :: Unfolds(h, children[i], ts[|below|..][i])
    ensures VisitsAll(ts) == VisitsAll(ts[..|below|]) + VisitsAll(ts[|below|..])
  {
    var n := |below|;
    assert ts == ts[..n] + ts[n..];
    VisitsAppend(ts[..n], ts[n..]);
    forall i | 0 <= i < n ensures Unfolds(h, below[i], ts[..n][i]) {
      assert (below + children)[i] == below[i];
    }
    forall i | 0 <= i < |children| ensures Unfolds(h, children[i], ts[n..][i]) {
      assert (below + children)[n + i] == children[i];
    }
  }

  lemma CloseTop(h: Heap, below: seq<Value>, id: Id, seen: set<Id>, ts: seq<Tree>)
    requires id in h && id !in seen && Children(h[id]).Some?
    requires IsForest(h, below + Children(h[id]).value, seen + {id}, ts)
    ensures Pending(h, below + [Ref(id)], seen)
  {
    var n := |below|;
    SplitChildren(h, below, Children(h[id]).value, seen + {id}, ts);
    var branch := Branch(id, ts[n..]);
    assert id !in VisitsAll(ts);
    assert VisitsAll(ts[..n]) + Visits(branch) == VisitsAll(ts) + multiset{id};
    AddTop(h, below, Ref(id), seen, ts[..n], branch);
  }

  // ---------- the worklist ----------

  method PushSlots(h: Heap, below: seq<Value>, slots: seq<Option<Value>>) returns (pushed: Option<seq<Value>>)
    ensures pushed == if Children(ArrayNode(slots)).None? then None
                      else Some(below + Children(ArrayNode(slots)).value)
  {
    var stack := below;
    for i := 0 to |slots|
      invariant forall j | 0 <= j < i :: slots[j].Some?
      invariant stack == below + seq(i, j requires 0 <= j < i && slots[j].Some? => slots[j].value)
    {
      if slots[i].None? {
        return None;
      }
      stack := stack + [slots[i].value];
    }
    return Some(stack);
  }

  /** Terminates on every heap, and answers true exactly for the finite trees of JSON nodes. */
  method IsJsonValue(h: Heap, value: Value) returns (ok: bool)
    requires Closed(h) && Valid(h, value)
    ensures ok <==> IsJsonTree(h, value)
  {
    PendingRoot(h, value);
    var stack: seq<Value> := [value];
    var seen: set<Id> := {};
    while stack != []
      invariant seen <= h.Keys
      invariant forall v <- stack :: Valid(h, v)
      invariant Pending(h, stack, seen) <==> IsJsonTree(h, value)
      decreases |h.Keys - seen|, |stack|
    {
      var current, below := stack[|stack| - 1], stack[..|stack| - 1];
      assert stack == below + [current] && current in stack;
      if JsonLeaf(current) {
        PopLeaf(h, below, current, seen);
        stack := below;
        continue;
      }
      if !current.Ref? || current.id in seen {
        PopRefused(h, below, current, seen);
        return false;
      }
      var id := current.id;
      if h[id].ArrayNode? {
        var pushed := PushSlots(h, below, h[id].slots);
        if pushed.None? {
          PopRefused(h, below, current, seen);
          return false;
        }
        stack := pushed.value;
      } else if h[id].PlainNode? {
        stack := below + h[id].values;
      } else {
        PopRefused(h, below, current, seen);
        return false;
      }
      PopObject(h, below, id, seen);
      ChildrenValid(h, id);
      assert h.Keys - (seen + {id}) < h.Keys - seen;
      seen := seen + {id};
    }
    PendingEmpty(h, seen);
    return true;
  }

  lemma ChildrenValid(h: Heap, id: Id)
    requires Closed(h) && id in h && Children(h[id]).Some?
    ensures forall v <- Children(h[id]).value :: Valid(h, v)
  {
    if h[id].ArrayNode? {
      var slots := h[id].slots;
      forall v <- Children(h[id]).value ensures Valid(h, v) {
        var i :| 0 <= i < |slots| && Children(h[id]).value[i] == v;
        assert slots[i] in slots;
      }
    }
  }

  // ---------- what a tree is ----------

  /** Which values without content of their own are JSON: everything JSON can write, and nothing else. */
  lemma LeavesAre(h: Heap, v: Value)
    requires !v.Ref?
    ensures IsJsonTree(h, v) <==>
      match v
      case Undefined => false
      case Unsupported => false
      case NumberValue(finite) => finite
      case _ => true
  {
    if JsonLeaf(v) {
      assert Unfolds(h, v, Leaf) && Once(Visits(Leaf));
    }
  }

  /** The unfoldings of an object: one for each element of an array without holes, or value of a plain object. */
  lemma NodesAre(h: Heap, id: Id, t: Tree)
    ensures Unfolds(h, Ref(id), t) <==>
      && t.Branch? && t.id == id && id in h
      && match h[id]
         case ExoticNode => false
         case PlainNode(values) =>
           |t.subtrees| == |values| && forall i | 0 <= i < |values| :: Unfolds(h, values[i], t.subtrees[i])
         case ArrayNode(slots) =>
           |t.subtrees| == |slots|
           && forall i | 0 <= i < |slots| :: slots[i].Some? && Unfolds(h, slots[i].value, t.subtrees[i])
  {
    if id in h && h[id].ArrayNode? && Children(h[id]).Some? {
      assert forall i | 0 <= i < |h[id].slots| :: h[id].slots[i] == Some(Children(h[id]).value[i]);
    }
  }

  /** No object is below itself, and none is reached along two ways. */
  lemma SharedIsRefused(h: Heap, id: Id, t: Tree)
    requires t.Branch? && Unfolds(h, Ref(id), t) && Once(Visits(t))
    ensures id !in VisitsAll(t.subtrees) && Once(VisitsAll(t.subtrees))
  {
    assert Visits(t)[id] == 1 + VisitsAll(t.subtrees)[id];
    forall x ensures VisitsAll(t.subtrees)[x] <= 1 {
      assert Visits(t)[x] >= VisitsAll(t.subtrees)[x];
    }
  }
}
