/** structuredclone/structuredclone.go: what the recursion keeps.

    A `World` is a snapshot of one structuredClone call: the heap it started from, the heap
    now, and the `seen` map from source nodes to their copies. */
module CloneInvariant {
  import opened CloneGraph

  datatype World = World(src: Heap, heap: Heap, next: Ref, seen: map<Ref, Ref>)

  ghost predicate SourceKept(w: World) {
    forall r :: r in w.src ==> r in w.heap && w.heap[r] == w.src[r]
  }

  ghost predicate Done(w: World, r: Ref) {
    && r in w.src && r in w.seen && w.seen[r] in w.heap
    && Supported(w.src[r])
    && Covered(Kids(w.src[r]), w.seen)
    && w.heap[w.seen[r]] == RenameNode(w.src[r], w.seen)
  }

  ghost predicate FreshCopies(w: World) {
    && Injective(w.seen)
    && (forall r :: r in w.seen ==> r in w.src && w.seen[r] in w.heap && w.seen[r] !in w.src)
    && (forall x :: x in w.heap ==> x < w.next)
  }

  ghost predicate NoStrays(w: World) {
    forall x :: x in w.heap && x !in w.src ==> CopyOfSome(w.seen, x)
  }

  ghost predicate CopyOfSome(seen: map<Ref, Ref>, x: Ref) {
    exists r :: r in seen && seen[r] == x
  }

  ghost predicate CopiedAt(w: World, r: Ref) {
    r in w.src && r in w.seen && w.seen[r] in w.heap && NodeCopied(w.src[r], w.heap[w.seen[r]], w.seen)
  }

  /** Holds whenever a method of the recursion is entered or left; `open` are the nodes whose
      copies are still being filled. */
  ghost predicate Inv(w: World, open: set<Ref>) {
    && WellFormed(w.src)
    && SourceKept(w)
    && FreshCopies(w)
    && NoStrays(w)
    && open <= w.seen.Keys
    && (forall r :: r in open ==> Container(w.src[r]))
    && (forall r {:trigger Done(w, r)} :: r in w.seen && r !in open ==> Done(w, r))
  }

  /** What one call adds: `seen` grows by nodes reachable from v, and the copies that were open
      before the call are as they were. */
  ghost predicate Grown(w0: World, w: World, v: Value, open: set<Ref>) {
    && w.src == w0.src
    && Extends(w0.seen, w.seen)
    && (forall r :: r in open && r in w0.seen && w0.seen[r] in w0.heap ==>
          w0.seen[r] in w.heap && w.heap[w0.seen[r]] == w0.heap[w0.seen[r]])
    && (forall r :: r in w.seen && r !in w0.seen ==> Reach(w.src, v, Object(r)))
  }

  /** The outcome of copying v: a renaming of v, or an exception for which something reachable
      from v is to blame. Either way the source is as it was. */
  ghost predicate Outcome(w0: World, w: World, v: Value, open: set<Ref>, res: Result) {
    && w.src == w0.src
    && SourceKept(w)
    && (res.Cloned? ==> Inv(w, open) && Grown(w0, w, v, open) && Covered([v], w.seen) && res.value == Rename(v, w.seen))
    && (res.Thrown? ==> res.error == DataCloneError && exists u :: Reach(w.src, v, u) && Unsupported(w.src, u))
  }

  /** The copy c of r is open and being filled. */
  ghost predicate Filling(w0: World, w: World, r: Ref, c: Ref, open: set<Ref>) {
    && r in w0.src && r !in w0.seen && r in w.seen && w.seen[r] == c && c in w.heap
    && open <= w0.seen.Keys && r !in open
    && Inv(w0, open)
    && Inv(w, open + {r})
    && Grown(w0, w, Object(r), open)
    && w.src.Keys - w.seen.Keys < w0.src.Keys - w0.seen.Keys
  }

  /** The copy c of r holds the first i entries of r, renamed. */
  ghost predicate Copying(w0: World, w: World, r: Ref, c: Ref, open: set<Ref>, i: nat) {
    && Filling(w0, w, r, c, open)
    && i <= Size(w.src[r])
    && Covered(Kids(Prefix(w.src[r], i)), w.seen)
    && w.heap[c] == RenameNode(Prefix(w.src[r], i), w.seen)
  }
}

/** structuredclone/structuredclone.go: how each step of the recursion keeps the invariant. */
module CloneSteps {
  import opened CloneGraph
  import opened CloneInvariant

  lemma InvFacts(w: World, open: set<Ref>)
    requires Inv(w, open)
    ensures WellFormed(w.src) && open <= w.seen.Keys && forall x :: x in w.heap ==> x < w.next
    ensures forall r :: r in w.src ==> r in w.heap && w.heap[r] == w.src[r]
  {
  }

  lemma DoneKept(w: World, w': World, r: Ref)
    requires Done(w, r)
    requires w'.src == w.src && Extends(w.seen, w'.seen)
    requires w'.seen[r] in w'.heap && w'.heap[w'.seen[r]] == w.heap[w.seen[r]]
    ensures Done(w', r)
  {
    RenameNodeStable(w.src[r], w.seen, w'.seen);
  }

  lemma Opened(w0: World, w: World, r: Ref, c: Ref, n: Node, open: set<Ref>)
    requires Inv(w0, open)
    requires r in w0.src && r !in w0.seen && c !in w0.heap && Container(w0.src[r])
    requires w.src == w0.src && w.heap == w0.heap[c := n] && w.seen == w0.seen[r := c]
    requires forall x :: x in w.heap ==> x < w.next
    ensures Filling(w0, w, r, c, open)
  {
    hide WellFormed, Reach, NoStrays, Done, Container;
    ReachSelf(w.src, Object(r));
    NoStraysAdded(w0, w, r, c);
    forall q | q in w.seen && q !in open + {r} ensures Done(w, q) {
      DoneKept(w0, w, q);
    }
    assert r in w0.src.Keys - w0.seen.Keys;
  }

  lemma NoStraysAdded(w0: World, w: World, r: Ref, c: Ref)
    requires NoStrays(w0) && r !in w0.seen
    requires w.src == w0.src && w.heap.Keys == w0.heap.Keys + {c} && w.seen == w0.seen[r := c]
    ensures NoStrays(w)
  {
    forall x | x in w.heap && x !in w.src ensures CopyOfSome(w.seen, x) {
      if x == c {
        assert w.seen[r] == x;
      } else {
        assert CopyOfSome(w0.seen, x);
        var q :| q in w0.seen && w0.seen[q] == x;
        assert w.seen[q] == x;
      }
    }
  }

  lemma NoStraysKept(w0: World, w: World)
    requires NoStrays(w0) && w.src == w0.src && w.heap.Keys == w0.heap.Keys && w.seen == w0.seen
    ensures NoStrays(w)
  {
  }

  lemma GrownBy(w0: World, w1: World, w: World, v: Value, u: Value, open: set<Ref>)
    requires Grown(w0, w1, v, open) && Grown(w1, w, u, open)
    requires open <= w0.seen.Keys
    requires u == v || Edge(w0.src, v, u)
    ensures Grown(w0, w, v, open)
  {
    forall q | q in w.seen && q !in w0.seen ensures Reach(w.src, v, Object(q)) {
      if q !in w1.seen && u != v {
        ReachVia(w.src, v, u, Object(q));
      }
    }
    forall q | q in open && w0.seen[q] in w0.heap ensures w0.seen[q] in w.heap && w.heap[w0.seen[q]] == w0.heap[w0.seen[q]] {
      assert w1.seen[q] == w0.seen[q];
    }
  }

  lemma GrownWeaken(w0: World, w: World, v: Value, open: set<Ref>, fewer: set<Ref>)
    requires Grown(w0, w, v, open) && fewer <= open
    ensures Grown(w0, w, v, fewer)
  {
  }

  lemma ChildCopied(w0: World, w1: World, w: World, r: Ref, c: Ref, open: set<Ref>, u: Value, res: Result)
    requires Filling(w0, w1, r, c, open)
    requires Edge(w0.src, Object(r), u)
    requires Outcome(w1, w, u, open + {r}, res) && res.Cloned?
    ensures Filling(w0, w, r, c, open)
    ensures w.heap[c] == w1.heap[c]
    ensures Extends(w1.seen, w.seen) && Covered([u], w.seen) && res.value == Rename(u, w.seen)
  {
    GrownWeaken(w1, w, u, open + {r}, open);
    GrownBy(w0, w1, w, Object(r), u, open);
    assert r in open + {r};
    assert w.src.Keys - w.seen.Keys <= w1.src.Keys - w1.seen.Keys;
  }

  lemma ChildThrew(w0: World, w1: World, w: World, r: Ref, c: Ref, open: set<Ref>, u: Value, res: Result)
    requires Filling(w0, w1, r, c, open)
    requires Edge(w0.src, Object(r), u)
    requires Outcome(w1, w, u, open + {r}, res) && res.Thrown?
    ensures Outcome(w0, w, Object(r), open, res)
  {
    hide Inv, Reach, Unsupported, Edge, Extends;
    BlameThrough(w.src, Object(r), u);
  }

  lemma Filled(w0: World, w1: World, w: World, r: Ref, c: Ref, open: set<Ref>, n: Node)
    requires Filling(w0, w1, r, c, open)
    requires w == w1.(heap := w1.heap[c := n])
    ensures Filling(w0, w, r, c, open)
  {
    hide WellFormed, Reach, NoStrays, Done, Container;
    assert w.heap.Keys == w1.heap.Keys;
    NoStraysKept(w1, w);
    forall q | q in w.seen && q !in open + {r} ensures Done(w, q) {
      DoneKept(w1, w, q);
    }
    forall q | q in open ensures w.heap[w0.seen[q]] == w0.heap[w0.seen[q]] {
      assert w.seen[q] != w.seen[r];
    }
  }

  lemma Closed(w0: World, w: World, r: Ref, c: Ref, open: set<Ref>)
    requires Filling(w0, w, r, c, open)
    requires Done(w, r)
    ensures Outcome(w0, w, Object(r), open, Cloned(Object(c)))
  {
  }

  lemma LeafAdded(w0: World, w: World, r: Ref, c: Ref, open: set<Ref>)
    requires Inv(w0, open)
    requires r in w0.src && r !in w0.seen && c !in w0.heap
    requires Supported(w0.src[r]) && Covered(Kids(w0.src[r]), w0.seen)
    requires w.src == w0.src && w.seen == w0.seen[r := c]
    requires w.heap == w0.heap[c := RenameNode(w0.src[r], w0.seen)]
    requires forall x :: x in w.heap ==> x < w.next
    ensures Inv(w, open)
    ensures Grown(w0, w, Object(r), open)
  {
    hide WellFormed, Reach, NoStrays, Done, Container, RenameNode, Covered, Supported;
    ReachSelf(w.src, Object(r));
    NoStraysAdded(w0, w, r, c);
    LeafDone(w0, w, r, c);
    forall q | q in w.seen && q !in open ensures Done(w, q) {
      if q != r {
        DoneKept(w0, w, q);
      }
    }
  }

  lemma LeafDone(w0: World, w: World, r: Ref, c: Ref)
    requires r in w0.src && r !in w0.seen && Supported(w0.src[r]) && Covered(Kids(w0.src[r]), w0.seen)
    requires w.src == w0.src && w.seen == w0.seen[r := c] && w.heap == w0.heap[c := RenameNode(w0.src[r], w0.seen)]
    ensures Done(w, r)
  {
    RenameNodeStable(w.src[r], w0.seen, w.seen);
  }

  /** A node whose children are all copied is copied in one go. */
  lemma Leaf(w0: World, w1: World, w: World, r: Ref, c: Ref, open: set<Ref>, u: Value)
    requires Inv(w0, open) && Inv(w1, open) && Grown(w0, w1, u, open)
    requires u == Object(r) || Edge(w0.src, Object(r), u)
    requires Inv(w, open) && Grown(w1, w, Object(r), open) && r in w.seen && w.seen[r] == c
    ensures Outcome(w0, w, Object(r), open, Cloned(Object(c)))
  {
    hide WellFormed, Reach, NoStrays, Done, FreshCopies, Container;
    ReachSelf(w.src, Object(r));
    forall q | q in w1.seen && q !in w0.seen ensures Reach(w1.src, Object(r), Object(q)) {
      if u != Object(r) {
        ReachVia(w.src, Object(r), u, Object(q));
      }
    }
    assert Grown(w0, w1, Object(r), open);
    GrownBy(w0, w1, w, Object(r), Object(r), open);
  }

  lemma Started(w0: World, w: World, r: Ref, c: Ref, open: set<Ref>)
    requires Inv(w0, open)
    requires r in w0.src && r !in w0.seen && c !in w0.heap && Container(w0.src[r])
    requires w.src == w0.src && w.heap == w0.heap[c := Prefix(w0.src[r], 0)] && w.seen == w0.seen[r := c]
    requires forall x :: x in w.heap ==> x < w.next
    ensures Copying(w0, w, r, c, open, 0)
  {
    Opened(w0, w, r, c, Prefix(w0.src[r], 0), open);
    PrefixEmpty(w0.src[r], w.seen);
  }

  /** Between two entries a child may be copied. */
  lemma MayCall(w0: World, w: World, r: Ref, c: Ref, open: set<Ref>, i: nat, u: Value)
    requires Copying(w0, w, r, c, open, i)
    requires u in Kids(w0.src[r])
    ensures Inv(w, open + {r}) && w.src == w0.src
    ensures u.Object? ==> u.ref in w.src
    ensures w.src.Keys - w.seen.Keys < w0.src.Keys - w0.seen.Keys
  {
    assert Edge(w.src, Object(r), u);
    EdgeStaysInHeap(w.src, Object(r), u);
  }

  lemma Called(w0: World, w1: World, w: World, r: Ref, c: Ref, open: set<Ref>, i: nat, u: Value, res: Result)
    requires Copying(w0, w1, r, c, open, i)
    requires u in Kids(w0.src[r])
    requires Outcome(w1, w, u, open + {r}, res)
    ensures res.Thrown? ==> Outcome(w0, w, Object(r), open, res)
    ensures res.Cloned? ==>
              && Copying(w0, w, r, c, open, i)
              && Extends(w1.seen, w.seen) && Covered([u], w.seen) && res.value == Rename(u, w.seen)
  {
    assert Edge(w0.src, Object(r), u);
    if res.Thrown? {
      ChildThrew(w0, w1, w, r, c, open, u, res);
    } else {
      ChildCopied(w0, w1, w, r, c, open, u, res);
      CoveredKept(Kids(Prefix(w.src[r], i)), w1.seen, w.seen);
      RenameNodeStable(Prefix(w.src[r], i), w1.seen, w.seen);
    }
  }

  /** The children of entry i are copied, so entry i can be stored. */
  lemma MayStore(w0: World, w: World, r: Ref, c: Ref, open: set<Ref>, i: nat)
    requires Copying(w0, w, r, c, open, i)
    requires i < Size(w.src[r]) && Covered(EntryKids(w.src[r], i), w.seen)
    ensures c in w.heap && w.heap[c] == RenameNode(Prefix(w.src[r], i), w.seen)
    ensures Store(w.heap[c], w.src[r], i, w.seen) == RenameNode(Prefix(w.src[r], i + 1), w.seen)
    ensures Copying(w0, w.(heap := w.heap[c := Store(w.heap[c], w.src[r], i, w.seen)]), r, c, open, i + 1)
  {
    KeysDistinct(w.src, r);
    StoreStep(w.src[r], i, w.seen);
    Filled(w0, w, w.(heap := w.heap[c := Store(w.heap[c], w.src[r], i, w.seen)]), r, c, open,
           Store(w.heap[c], w.src[r], i, w.seen));
  }

  /** A node whose copy is done is copied field by field. */
  lemma OutcomeCopies(w0: World, w: World, r: Ref, open: set<Ref>, res: Result)
    requires Outcome(w0, w, Object(r), open, res) && res.Cloned? && r !in open
    ensures CopiedAt(w, r) && res.value == Object(w.seen[r])
  {
    assert Copied(Object(r), w.seen.Keys) by { assert Object(r) in [Object(r)]; }
    DoneIsCopied(w, r);
  }

  lemma DoneIsCopied(w: World, r: Ref)
    requires Done(w, r)
    ensures CopiedAt(w, r)
  {
    RenamedIsCopied(w.src[r], w.seen);
  }

  lemma Finished(w0: World, w: World, r: Ref, c: Ref, open: set<Ref>, i: nat)
    requires Copying(w0, w, r, c, open, i) && i == Size(w.src[r])
    ensures Outcome(w0, w, Object(r), open, Cloned(Object(c)))
  {
    PrefixFull(w.src[r]);
    Closed(w0, w, r, c, open);
  }
}
