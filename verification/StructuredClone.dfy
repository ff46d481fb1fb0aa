/** structuredclone/structuredclone.go: structuredClone itself.

    `Cloner` is one call. The recursion writes `seen` before it descends and fills each copy in
    place, so a reference back to an open node resolves to the unfinished copy. */
module StructuredClone {
  import opened CloneGraph
  import opened CloneInvariant
  import opened CloneSteps

  class Cloner {
    var heap: Heap
    var next: Ref
    var seen: map<Ref, Ref>
    ghost const src: Heap

    constructor (heap: Heap, next: Ref)
      ensures this.heap == heap && this.next == next && this.seen == map[] && this.src == heap
    {
      this.heap, this.next, this.seen, this.src := heap, next, map[], heap;
    }

    ghost function Now(): World
      reads this
    {
      World(src, heap, next, seen)
    }

    method Alloc(n: Node) returns (r: Ref)
      requires forall x :: x in heap ==> x < next
      modifies this`heap, this`next
      ensures r !in old(heap) && heap == old(heap)[r := n]
      ensures forall x :: x in heap ==> x < next
    {
      r := next;
      heap, next := heap[r := n], next + 1;
    }

    method CloneValue(v: Value, ghost open: set<Ref>) returns (res: Result)
      requires Inv(Now(), open)
      requires v.Object? ==> v.ref in src
      modifies this
      ensures Outcome(old(Now()), Now(), v, open, res)
      decreases src.Keys - seen.Keys, if v.Object? && src[v.ref].ViewNode? then 3 else 1
    {
      ReachSelf(src, v);
      if v.Primitive? {
        return Cloned(v);
      }
      if v.Symbol? {
        return Thrown(DataCloneError);
      }
      var node := heap[v.ref];
      if node.FunctionNode? {
        return Thrown(DataCloneError);
      }
      if v.ref in seen {
        return Cloned(Object(seen[v.ref]));
      }
      match node {
        case ArrayNode(_) => res := CloneArray(v.ref, open);
        case PlainNode(_) => res := ClonePlainObject(v.ref, open);
        case MapNode(_) => res := CloneMap(v.ref, open);
        case SetNode(_) => res := CloneSet(v.ref, open);
        case DateNode(_) => res := CloneDate(v.ref, open);
        case RegExpNode(_, _) => res := CloneRegExp(v.ref, open);
        case BufferNode(_, _) => res := CloneArrayBuffer(v.ref, open);
        case ViewNode(_, _, _, _) => res := CloneView(v.ref, open);
        case _ => res := Thrown(DataCloneError);
      }
    }

    method CloneArray(r: Ref, ghost open: set<Ref>) returns (res: Result)
      requires Inv(Now(), open) && r in src && src[r].ArrayNode? && r !in seen
      modifies this
      ensures Outcome(old(Now()), Now(), Object(r), open, res)
      ensures res.Cloned? ==> CopiedAt(Now(), r) && res.value == Object(seen[r])
      decreases src.Keys - seen.Keys, 0
    {
      hide Inv, Outcome, Filling, Copying;
      InvFacts(Now(), open);
      var elems := heap[r].elems;
      assert src[r] == ArrayNode(elems);
      var cloned := Alloc(ArrayNode([]));
      seen := seen[r := cloned];
      Started(old(Now()), Now(), r, cloned, open);
      var index := 0;
      while index < |elems|
        invariant 0 <= index <= |elems|
        invariant Copying(old(Now()), Now(), r, cloned, open, index)
      {
        EntryKidsAreKids(src[r], index);
        ghost var before := Now();
        MayCall(old(Now()), before, r, cloned, open, index, elems[index]);
        res := CloneValue(elems[index], open + {r});
        Called(old(Now()), before, Now(), r, cloned, open, index, elems[index], res);
        if res.Thrown? {
          return;
        }
        MayStore(old(Now()), Now(), r, cloned, open, index);
        heap := heap[cloned := ArrayNode(AssignIndex(heap[cloned].elems, index, res.value))];
        index := index + 1;
      }
      Finished(old(Now()), Now(), r, cloned, open, index);
      res := Cloned(Object(cloned));
      OutcomeCopies(old(Now()), Now(), r, open, res);
    }

    method ClonePlainObject(r: Ref, ghost open: set<Ref>) returns (res: Result)
      requires Inv(Now(), open) && r in src && src[r].PlainNode? && r !in seen
      modifies this
      ensures Outcome(old(Now()), Now(), Object(r), open, res)
      ensures res.Cloned? ==> CopiedAt(Now(), r) && res.value == Object(seen[r])
      decreases src.Keys - seen.Keys, 0
    {
      hide Inv, Outcome, Filling, Copying;
      InvFacts(Now(), open);
      var props := heap[r].props;
      assert src[r] == PlainNode(props);
      var cloned := Alloc(PlainNode([]));
      seen := seen[r := cloned];
      Started(old(Now()), Now(), r, cloned, open);
      var i := 0;
      while i < |props|
        invariant 0 <= i <= |props|
        invariant Copying(old(Now()), Now(), r, cloned, open, i)
      {
        EntryKidsAreKids(src[r], i);
        ghost var before := Now();
        MayCall(old(Now()), before, r, cloned, open, i, props[i].1);
        res := CloneValue(props[i].1, open + {r});
        Called(old(Now()), before, Now(), r, cloned, open, i, props[i].1, res);
        if res.Thrown? {
          return;
        }
        MayStore(old(Now()), Now(), r, cloned, open, i);
        heap := heap[cloned := PlainNode(Assign(heap[cloned].props, props[i].0, res.value))];
        i := i + 1;
      }
      Finished(old(Now()), Now(), r, cloned, open, i);
      res := Cloned(Object(cloned));
      OutcomeCopies(old(Now()), Now(), r, open, res);
    }

    method CloneMap(r: Ref, ghost open: set<Ref>) returns (res: Result)
      requires Inv(Now(), open) && r in src && src[r].MapNode? && r !in seen
      modifies this
      ensures Outcome(old(Now()), Now(), Object(r), open, res)
      ensures res.Cloned? ==> CopiedAt(Now(), r) && res.value == Object(seen[r])
      decreases src.Keys - seen.Keys, 0
    {
      hide Inv, Outcome, Filling, Copying;
      InvFacts(Now(), open);
      var entries := heap[r].entries;
      assert src[r] == MapNode(entries);
      var cloned := Alloc(MapNode([]));
      seen := seen[r := cloned];
      Started(old(Now()), Now(), r, cloned, open);
      var i := 0;
      while i < |entries|
        invariant 0 <= i <= |entries|
        invariant Copying(old(Now()), Now(), r, cloned, open, i)
      {
        EntryKidsAreKids(src[r], i);
        ghost var before := Now();
        MayCall(old(Now()), before, r, cloned, open, i, entries[i].0);
        var key := CloneValue(entries[i].0, open + {r});
        Called(old(Now()), before, Now(), r, cloned, open, i, entries[i].0, key);
        if key.Thrown? {
          return key;
        }
        ghost var between := Now();
        MayCall(old(Now()), between, r, cloned, open, i, entries[i].1);
        var value := CloneValue(entries[i].1, open + {r});
        Called(old(Now()), between, Now(), r, cloned, open, i, entries[i].1, value);
        if value.Thrown? {
          return value;
        }
        MayStore(old(Now()), Now(), r, cloned, open, i);
        heap := heap[cloned := MapNode(Assign(heap[cloned].entries, key.value, value.value))];
        i := i + 1;
      }
      Finished(old(Now()), Now(), r, cloned, open, i);
      res := Cloned(Object(cloned));
      OutcomeCopies(old(Now()), Now(), r, open, res);
    }

    method CloneSet(r: Ref, ghost open: set<Ref>) returns (res: Result)
      requires Inv(Now(), open) && r in src && src[r].SetNode? && r !in seen
      modifies this
      ensures Outcome(old(Now()), Now(), Object(r), open, res)
      ensures res.Cloned? ==> CopiedAt(Now(), r) && res.value == Object(seen[r])
      decreases src.Keys - seen.Keys, 0
    {
      hide Inv, Outcome, Filling, Copying;
      InvFacts(Now(), open);
      var members := heap[r].members;
      assert src[r] == SetNode(members);
      var cloned := Alloc(SetNode([]));
      seen := seen[r := cloned];
      Started(old(Now()), Now(), r, cloned, open);
      var i := 0;
      while i < |members|
        invariant 0 <= i <= |members|
        invariant Copying(old(Now()), Now(), r, cloned, open, i)
      {
        EntryKidsAreKids(src[r], i);
        ghost var before := Now();
        MayCall(old(Now()), before, r, cloned, open, i, members[i]);
        res := CloneValue(members[i], open + {r});
        Called(old(Now()), before, Now(), r, cloned, open, i, members[i], res);
        if res.Thrown? {
          return;
        }
        MayStore(old(Now()), Now(), r, cloned, open, i);
        heap := heap[cloned := SetNode(Add(heap[cloned].members, res.value))];
        i := i + 1;
      }
      Finished(old(Now()), Now(), r, cloned, open, i);
      res := Cloned(Object(cloned));
      OutcomeCopies(old(Now()), Now(), r, open, res);
    }

    method CloneDate(r: Ref, ghost open: set<Ref>) returns (res: Result)
      requires Inv(Now(), open) && r in src && src[r].DateNode? && r !in seen
      modifies this
      ensures Outcome(old(Now()), Now(), Object(r), open, res)
      ensures res.Cloned? ==> CopiedAt(Now(), r) && res.value == Object(seen[r])
    {
      var cloned := Alloc(DateNode(heap[r].time));
      seen := seen[r := cloned];
      LeafAdded(old(Now()), Now(), r, cloned, open);
      Leaf(old(Now()), old(Now()), Now(), r, cloned, open, Object(r));
      res := Cloned(Object(cloned));
      OutcomeCopies(old(Now()), Now(), r, open, res);
    }

    method CloneRegExp(r: Ref, ghost open: set<Ref>) returns (res: Result)
      requires Inv(Now(), open) && r in src && src[r].RegExpNode? && r !in seen
      modifies this
      ensures Outcome(old(Now()), Now(), Object(r), open, res)
      ensures res.Cloned? ==> CopiedAt(Now(), r) && res.value == Object(seen[r])
    {
      var cloned := Alloc(RegExpNode(heap[r].source, heap[r].flags));
      seen := seen[r := cloned];
      LeafAdded(old(Now()), Now(), r, cloned, open);
      Leaf(old(Now()), old(Now()), Now(), r, cloned, open, Object(r));
      res := Cloned(Object(cloned));
      OutcomeCopies(old(Now()), Now(), r, open, res);
    }

    method CloneArrayBuffer(r: Ref, ghost open: set<Ref>) returns (res: Result)
      requires Inv(Now(), open) && r in src && src[r].BufferNode? && r !in seen
      modifies this
      ensures Outcome(old(Now()), Now(), Object(r), open, res)
      ensures res.Cloned? ==> CopiedAt(Now(), r) && res.value == Object(seen[r])
    {
      if heap[r].detached {
        ReachSelf(src, Object(r));
        return Thrown(DataCloneError);
      }
      var cloned := Alloc(BufferNode(heap[r].bytes, false));
      seen := seen[r := cloned];
      LeafAdded(old(Now()), Now(), r, cloned, open);
      Leaf(old(Now()), old(Now()), Now(), r, cloned, open, Object(r));
      res := Cloned(Object(cloned));
      OutcomeCopies(old(Now()), Now(), r, open, res);
    }

    /** The bytes of a view are cloned first. The view constructor checks its range against the
        cloned buffer; that check never fails. */
    method CloneView(r: Ref, ghost open: set<Ref>) returns (res: Result)
      requires Inv(Now(), open) && r in src && src[r].ViewNode? && r !in seen
      modifies this
      ensures Outcome(old(Now()), Now(), Object(r), open, res)
      ensures res.Cloned? ==> CopiedAt(Now(), r) && res.value == Object(seen[r])
      decreases src.Keys - seen.Keys, 2
    {
      var source := heap[r];
      assert NodeOk(src, src[r]);
      assert Edge(src, Object(r), source.buffer);
      res := CloneValue(source.buffer, open);
      if res.Thrown? {
        BlameThrough(src, Object(r), source.buffer);
        return;
      }
      ghost var copied := Now();
      assert Done(copied, source.buffer.ref);
      var target := heap[res.value.ref];
      assert target.BufferNode? && !target.detached && ViewFits(source.kind, source.byteOffset, source.length, |target.bytes|);
      if r in seen {
        LeafReachesItself(src, source.buffer, Object(r));
        assert false;
      }
      var cloned := Alloc(ViewNode(source.kind, res.value, source.byteOffset, source.length));
      seen := seen[r := cloned];
      LeafAdded(copied, Now(), r, cloned, open);
      Leaf(old(Now()), copied, Now(), r, cloned, open, source.buffer);
      res := Cloned(Object(cloned));
      OutcomeCopies(old(Now()), Now(), r, open, res);
    }
  }

  // ---------------------------------------------------------------------------------
  // The call as a whole
  // ---------------------------------------------------------------------------------

  /** `copy` is v copied along f: f relates exactly the nodes reachable from v to fresh nodes, one
      to one, and commutes with every edge; nothing else was allocated. */
  ghost predicate IsCopy(before: Heap, v: Value, after: Heap, copy: Value, f: map<Ref, Ref>) {
    && SourceKept(World(before, after, 0, f))
    && Injective(f)
    && copy == Rename(v, f)
    && (forall r :: r in f <==> r in before && Reach(before, v, Object(r)))
    && (forall r :: r in f ==> f[r] !in before && f[r] in after && after[f[r]] == RenameNode(before[r], f))
    && (forall x :: x in after && x !in before ==> CopyOfSome(f, x))
  }

  ghost predicate CanClone(h: Heap, v: Value) {
    forall w :: Reach(h, v, w) ==> !Unsupported(h, w)
  }

  method StructuredClone(heap: Heap, next: Ref, v: Value) returns (res: Result, after: Heap, seen: map<Ref, Ref>)
    requires WellFormed(heap) && (forall r :: r in heap ==> r < next)
    requires v.Object? ==> v.ref in heap
    ensures forall r :: r in heap ==> r in after && after[r] == heap[r]
    ensures res.Cloned? <==> CanClone(heap, v)
    ensures res.Cloned? ==> IsCopy(heap, v, after, res.value, seen)
    ensures res.Cloned? ==> Image(v, res.value, seen)
    ensures res.Cloned? ==> forall r :: Reach(heap, v, Object(r)) ==> r in heap && CopiedAt(World(heap, after, 0, seen), r)
  {
    var cloner := new Cloner(heap, next);
    res := cloner.CloneValue(v, {});
    after, seen := cloner.heap, cloner.seen;
    if res.Cloned? {
      ClonedEverything(World(heap, heap, next, map[]), cloner.Now(), v, res);
      EveryNodeIsCopied(heap, v, after, res.value, seen);
    }
  }

  lemma ClonedEverything(w0: World, w: World, v: Value, res: Result)
    requires Outcome(w0, w, v, {}, res) && res.Cloned?
    requires w0.src == w0.heap && w0.seen == map[]
    requires v.Object? ==> v.ref in w0.src
    ensures CanClone(w.src, v) && IsCopy(w.src, v, w.heap, res.value, w.seen)
  {
    assert v in [v];
    forall u | Reach(w.src, v, u) ensures !Unsupported(w.src, u) && (u.Object? ==> u.ref in w.seen) {
      var p :| IsPath(w.src, p) && p[0] == v && p[|p| - 1] == u;
      forall r, k | r in w.seen.Keys && r in w.src && k in Kids(w.src[r]) ensures Copied(k, w.seen.Keys) {
        assert Done(w, r);
      }
      PathStaysIn(w.src, p, w.seen.Keys);
      if u.Object? {
        assert Done(w, u.ref);
      }
    }
    forall r | r in w.seen ensures w.heap[w.seen[r]] == RenameNode(w.src[r], w.seen) {
      assert Done(w, r);
    }
  }

  /** Every reachable node arrives with its kind, its data and its children in place. */
  lemma EveryNodeIsCopied(before: Heap, v: Value, after: Heap, copy: Value, f: map<Ref, Ref>)
    requires WellFormed(before) && IsCopy(before, v, after, copy, f) && CanClone(before, v)
    requires v.Object? ==> v.ref in before
    ensures Image(v, copy, f)
    ensures forall r :: Reach(before, v, Object(r)) ==> r in before && CopiedAt(World(before, after, 0, f), r)
  {
    ReachSelf(before, v);
    assert !Unsupported(before, v);
    forall r | Reach(before, v, Object(r)) ensures r in before && CopiedAt(World(before, after, 0, f), r) {
      ReachableIsThere(before, v, r);
      forall k | k in Kids(before[r]) ensures Copied(k, f.Keys) {
        StepFurther(before, v, Object(r), k);
        EdgeStaysInHeap(before, Object(r), k);
      }
      assert !Unsupported(before, Object(r));
      RenamedIsCopied(before[r], f);
    }
  }

  lemma ReachableIsThere(h: Heap, v: Value, r: Ref)
    requires WellFormed(h) && (v.Object? ==> v.ref in h) && Reach(h, v, Object(r))
    ensures r in h
  {
    var p :| IsPath(h, p) && p[0] == v && p[|p| - 1] == Object(r);
    if |p| > 1 {
      assert Edge(h, p[|p| - 2], p[|p| - 2 + 1]);
      EdgeStaysInHeap(h, p[|p| - 2], p[|p| - 1]);
    }
  }

  lemma StepFurther(h: Heap, v: Value, u: Value, w: Value)
    requires Reach(h, v, u) && Edge(h, u, w)
    ensures Reach(h, v, w)
  {
    var p :| IsPath(h, p) && p[0] == v && p[|p| - 1] == u;
    var q := p + [w];
    forall i | 0 <= i < |q| - 1 ensures Edge(h, q[i], q[i + 1]) {
      assert i < |p| - 1 ==> Edge(h, p[i], p[i + 1]);
    }
    assert q[0] == v && q[|q| - 1] == w;
  }
}
