/** structuredclone/structuredclone.go: what a copy is worth to the script that made it. */
module CloneIsomorphism {
  import opened CloneGraph
  import opened CloneInvariant
  import opened StructuredClone

  lemma KidsOfCopy(n: Node, f: map<Ref, Ref>)
    ensures Kids(RenameNode(n, f)) == RenameAll(Kids(n), f)
  {
  }

  /** Along a path from v every object is among the copied ones. */
  lemma {:induction false} CopiedAlongPath(before: Heap, v: Value, after: Heap, copy: Value, f: map<Ref, Ref>, p: seq<Value>, i: nat)
    requires WellFormed(before) && IsCopy(before, v, after, copy, f)
    requires v.Object? ==> v.ref in before
    requires IsPath(before, p) && p[0] == v && i < |p|
    ensures p[i].Object? ==> p[i].ref in f
  {
    assert p[..i + 1][|p[..i + 1]| - 1] == p[i];
    assert IsPath(before, p[..i + 1]) && Reach(before, v, p[i]);
    if i > 0 {
      assert Edge(before, p[i - 1], p[i - 1 + 1]);
      EdgeStaysInHeap(before, p[i - 1], p[i]);
    }
  }

  lemma PathIsCopied(before: Heap, v: Value, after: Heap, copy: Value, f: map<Ref, Ref>, p: seq<Value>)
    requires WellFormed(before) && IsCopy(before, v, after, copy, f)
    requires v.Object? ==> v.ref in before
    requires IsPath(before, p) && p[0] == v
    ensures IsPath(after, RenameAll(p, f)) && RenameAll(p, f)[0] == copy
  {
    var q := RenameAll(p, f);
    forall i | 0 <= i < |q| - 1 ensures Edge(after, q[i], q[i + 1]) {
      assert Edge(before, p[i], p[i + 1]);
      CopiedAlongPath(before, v, after, copy, f, p, i);
      EdgeIsCopied(before, v, after, copy, f, p[i], p[i + 1]);
    }
  }

  lemma EdgeIsCopied(before: Heap, v: Value, after: Heap, copy: Value, f: map<Ref, Ref>, a: Value, b: Value)
    requires IsCopy(before, v, after, copy, f)
    requires Edge(before, a, b) && a.ref in f
    ensures Edge(after, Rename(a, f), Rename(b, f))
  {
    var n := before[a.ref];
    KidsOfCopy(n, f);
    var k :| 0 <= k < |Kids(n)| && Kids(n)[k] == b;
    assert RenameAll(Kids(n), f)[k] == Rename(b, f);
  }

  lemma EdgeOfCopy(before: Heap, v: Value, after: Heap, copy: Value, f: map<Ref, Ref>, a: Value, w: Value) returns (b: Value)
    requires IsCopy(before, v, after, copy, f)
    requires a.Object? ==> a.ref in f
    requires Edge(after, Rename(a, f), w)
    ensures Edge(before, a, b) && Rename(b, f) == w
  {
    var n := before[a.ref];
    KidsOfCopy(n, f);
    var k :| 0 <= k < |Kids(RenameNode(n, f))| && Kids(RenameNode(n, f))[k] == w;
    b := Kids(n)[k];
  }

  lemma PathPrefix(h: Heap, p: seq<Value>, m: nat)
    requires IsPath(h, p) && 0 < m <= |p|
    ensures IsPath(h, p[..m])
    ensures m < |p| ==> Edge(h, p[m - 1], p[m])
  {
    forall i | 0 <= i < m - 1 ensures Edge(h, p[..m][i], p[..m][i + 1]) {
      assert Edge(h, p[i], p[i + 1]);
    }
    assert m < |p| ==> Edge(h, p[m - 1], p[m - 1 + 1]);
  }

  lemma PathExtended(h: Heap, p: seq<Value>, b: Value)
    requires IsPath(h, p) && Edge(h, p[|p| - 1], b)
    ensures IsPath(h, p + [b])
  {
    var q := p + [b];
    forall i | 0 <= i < |q| - 1 ensures Edge(h, q[i], q[i + 1]) {
      if i < |p| - 1 {
        assert Edge(h, p[i], p[i + 1]);
      }
    }
  }

  lemma CopyOfRoot(before: Heap, v: Value, after: Heap, copy: Value, f: map<Ref, Ref>, q: seq<Value>)
    requires IsCopy(before, v, after, copy, f)
    requires IsPath(after, q)
    ensures copy == Rename(v, f) && |q| > 0 && IsPath(before, [v])
  {
  }

  lemma {:induction false} PathOfCopy(before: Heap, v: Value, after: Heap, copy: Value, f: map<Ref, Ref>, q: seq<Value>)
      returns (p: seq<Value>)
    requires WellFormed(before) && IsCopy(before, v, after, copy, f)
    requires v.Object? ==> v.ref in before
    requires IsPath(after, q) && q[0] == copy
    ensures IsPath(before, p) && p[0] == v && RenameAll(p, f) == q
    decreases |q|
  {
    hide WellFormed, IsCopy, IsPath, Edge;
    CopyOfRoot(before, v, after, copy, f, q);
    var m := |q| - 1;
    if m == 0 {
      p := [v];
    } else {
      PathPrefix(after, q, m);
      var p0 := PathOfCopy(before, v, after, copy, f, q[..m]);
      CopiedAlongPath(before, v, after, copy, f, p0, m - 1);
      assert q[m - 1] == q[..m][m - 1] == RenameAll(p0, f)[m - 1];
      var b := EdgeOfCopy(before, v, after, copy, f, p0[m - 1], q[m]);
      PathExtended(before, p0, b);
      p := p0 + [b];
      assert RenameAll(p, f) == RenameAll(p0, f) + [Rename(b, f)] == q[..m] + [q[m]] == q;
    }
  }

  lemma ReachIsCopied(before: Heap, v: Value, after: Heap, copy: Value, f: map<Ref, Ref>, u: Value)
    requires WellFormed(before) && IsCopy(before, v, after, copy, f)
    requires v.Object? ==> v.ref in before
    requires Reach(before, v, u)
    ensures Reach(after, copy, Rename(u, f))
    ensures u.Object? ==> u.ref in f
  {
    var p :| IsPath(before, p) && p[0] == v && p[|p| - 1] == u;
    PathIsCopied(before, v, after, copy, f, p);
    CopiedAlongPath(before, v, after, copy, f, p, |p| - 1);
    assert RenameAll(p, f)[|p| - 1] == Rename(u, f);
  }

  lemma ReachOfCopy(before: Heap, v: Value, after: Heap, copy: Value, f: map<Ref, Ref>, w: Value) returns (u: Value)
    requires WellFormed(before) && IsCopy(before, v, after, copy, f)
    requires v.Object? ==> v.ref in before
    requires Reach(after, copy, w)
    ensures Reach(before, v, u) && Rename(u, f) == w
  {
    var q :| IsPath(after, q) && q[0] == copy && q[|q| - 1] == w;
    var p := PathOfCopy(before, v, after, copy, f, q);
    assert RenameAll(p, f)[|p| - 1] == w;
    u := p[|p| - 1];
  }

  /** The graph reachable from the copy is exactly the image of the graph reachable from v. */
  lemma CopyIsIsomorphic(before: Heap, v: Value, after: Heap, copy: Value, f: map<Ref, Ref>, w: Value)
    requires WellFormed(before) && IsCopy(before, v, after, copy, f)
    requires v.Object? ==> v.ref in before
    ensures Reach(after, copy, w) <==> exists u :: Reach(before, v, u) && Rename(u, f) == w
  {
    if Reach(after, copy, w) {
      var u := ReachOfCopy(before, v, after, copy, f, w);
    }
    if u :| Reach(before, v, u) && Rename(u, f) == w {
      ReachIsCopied(before, v, after, copy, f, u);
    }
  }

  /** Only fresh objects can be reached from the copy, never one of the source. */
  lemma CopyIsSeparate(before: Heap, v: Value, after: Heap, copy: Value, f: map<Ref, Ref>, x: Ref)
    requires WellFormed(before) && IsCopy(before, v, after, copy, f)
    requires v.Object? ==> v.ref in before
    requires Reach(after, copy, Object(x))
    ensures x !in before && x in after
  {
    var u := ReachOfCopy(before, v, after, copy, f, Object(x));
    ReachIsCopied(before, v, after, copy, f, u);
  }

  /** Two values reachable from v are the same value exactly when their copies are. */
  lemma SharingIsKept(before: Heap, v: Value, after: Heap, copy: Value, f: map<Ref, Ref>, u: Value, w: Value)
    requires WellFormed(before) && IsCopy(before, v, after, copy, f)
    requires v.Object? ==> v.ref in before
    requires Reach(before, v, u) && Reach(before, v, w)
    ensures Rename(u, f) == Rename(w, f) <==> u == w
  {
    ReachIsCopied(before, v, after, copy, f, u);
    ReachIsCopied(before, v, after, copy, f, w);
  }

  /** The heap with the copy in it is again one the engine could hold: keys of copied Maps, members
      of copied Sets and property names are distinct, and every view lies within its buffer. */
  lemma CopyIsWellFormed(before: Heap, v: Value, after: Heap, copy: Value, f: map<Ref, Ref>)
    requires WellFormed(before) && IsCopy(before, v, after, copy, f) && CanClone(before, v)
    requires v.Object? ==> v.ref in before
    ensures WellFormed(after)
  {
    forall x | x in after ensures NodeOk(after, after[x]) {
      if x in before {
        assert NodeOk(before, before[x]);
      } else {
        assert CopyOfSome(f, x);
        var r :| r in f && f[r] == x;
        CopiedNodeOk(before, v, after, copy, f, r);
      }
    }
  }

  lemma KidsAreCopied(before: Heap, v: Value, after: Heap, copy: Value, f: map<Ref, Ref>, r: Ref)
    requires WellFormed(before) && IsCopy(before, v, after, copy, f) && CanClone(before, v)
    requires r in f
    ensures Covered(Kids(before[r]), f)
  {
    forall k | k in Kids(before[r]) ensures Copied(k, f.Keys) {
      StepFurther(before, v, Object(r), k);
      EdgeStaysInHeap(before, Object(r), k);
    }
  }

  lemma DistinctRenamed(s: seq<Value>, f: map<Ref, Ref>)
    requires Distinct(s) && Covered(s, f) && Injective(f)
    ensures Distinct(RenameAll(s, f))
  {
    forall i, j | 0 <= i < j < |s| ensures Rename(s[i], f) != Rename(s[j], f) {
      assert Copied(s[i], f.Keys) && Copied(s[j], f.Keys);
      RenameInjective(f, s[i], s[j]);
    }
  }

  lemma CopiedNodeOk(before: Heap, v: Value, after: Heap, copy: Value, f: map<Ref, Ref>, r: Ref)
    requires WellFormed(before) && IsCopy(before, v, after, copy, f) && CanClone(before, v)
    requires r in f
    ensures NodeOk(after, RenameNode(before[r], f))
  {
    hide WellFormed, Kids, CanClone, Covered;
    var n := before[r];
    NodeAt(before, r);
    KidsAreCopied(before, v, after, copy, f, r);
    CopiedKidsIn(n, after, f);
    KeysStayDistinct(before, n, f);
    ViewStaysWithin(before, after, f, n);
  }

  lemma NodeAt(h: Heap, r: Ref)
    requires WellFormed(h) && r in h
    ensures NodeOk(h, h[r])
  {
  }

  lemma CopiedKidsIn(n: Node, after: Heap, f: map<Ref, Ref>)
    requires Covered(Kids(n), f) && forall q :: q in f ==> f[q] in after
    ensures forall k :: k in Kids(RenameNode(n, f)) && k.Object? ==> k.ref in after
  {
    KidsOfCopy(n, f);
    forall k | k in Kids(RenameNode(n, f)) && k.Object? ensures k.ref in after {
      var i :| 0 <= i < |Kids(n)| && RenameAll(Kids(n), f)[i] == k;
      assert Copied(Kids(n)[i], f.Keys);
    }
  }

  lemma KeysStayDistinct(h: Heap, n: Node, f: map<Ref, Ref>)
    requires NodeOk(h, n) && Covered(Kids(n), f) && Injective(f)
    ensures var c := RenameNode(n, f);
      && (c.PlainNode? ==> Distinct(Firsts(c.props)))
      && (c.MapNode? ==> Distinct(Firsts(c.entries)))
      && (c.SetNode? ==> Distinct(c.members))
  {
    hide Distinct, Covered, Injective;
    match n
    case PlainNode(props) => assert Firsts(RenameProps(props, f)) == Firsts(props);
    case MapNode(entries) =>
      assert Firsts(RenameEntries(entries, f)) == RenameAll(Firsts(entries), f);
      CoveredConcat(Firsts(entries), Seconds(entries), f);
      DistinctRenamed(Firsts(entries), f);
    case SetNode(members) => DistinctRenamed(members, f);
    case _ =>
  }

  lemma InCovered(v: Value, vs: seq<Value>, f: map<Ref, Ref>)
    requires Covered(vs, f) && v in vs
    ensures Copied(v, f.Keys)
  {
  }

  lemma ViewStaysWithin(before: Heap, after: Heap, f: map<Ref, Ref>, n: Node)
    requires NodeOk(before, n) && Covered(Kids(n), f)
    requires forall r :: r in f && r in before ==> f[r] in after && after[f[r]] == RenameNode(before[r], f)
    ensures var c := RenameNode(n, f);
      c.ViewNode? ==>
        && c.buffer.Object? && c.buffer.ref in after && after[c.buffer.ref].BufferNode?
        && (!after[c.buffer.ref].detached ==> ViewFits(c.kind, c.byteOffset, c.length, |after[c.buffer.ref].bytes|))
  {
    hide Distinct, Covered;
    if n.ViewNode? {
      InCovered(n.buffer, Kids(n), f);
    }
  }
}
