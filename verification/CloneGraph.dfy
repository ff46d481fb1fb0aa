/** structuredclone/structuredclone.go: the object graphs that structuredClone copies.

    The JavaScript heap is a map from references to nodes; a graph may be cyclic and shared. */
module CloneGraph {

  type Ref = nat

  datatype Value = Primitive(id: int) | Symbol(id: int) | Object(ref: Ref)

  datatype ViewKind =
    | DataView
    | Int8Array | Uint8Array | Uint8ClampedArray
    | Int16Array | Uint16Array
    | Int32Array | Uint32Array | Float32Array
    | BigInt64Array | BigUint64Array | Float64Array

  datatype Node =
    | ArrayNode(elems: seq<Value>)
    | PlainNode(props: seq<(string, Value)>)
    | MapNode(entries: seq<(Value, Value)>)
    | SetNode(members: seq<Value>)
    | DateNode(time: int)
    | RegExpNode(source: string, flags: string)
    | BufferNode(bytes: seq<bv8>, detached: bool)
    | ViewNode(kind: ViewKind, buffer: Value, byteOffset: nat, length: nat)
    | FunctionNode
    | OtherNode(className: string)

  datatype Error = DataCloneError
  datatype Result = Cloned(value: Value) | Thrown(error: Error)

  type Heap = map<Ref, Node>

  /** Bytes per element; the length of a DataView is counted in bytes. */
  function ElementSize(kind: ViewKind): nat {
    match kind
    case DataView => 1
    case Int8Array | Uint8Array | Uint8ClampedArray => 1
    case Int16Array | Uint16Array => 2
    case Int32Array | Uint32Array | Float32Array => 4
    case BigInt64Array | BigUint64Array | Float64Array => 8
  }

  predicate ViewFits(kind: ViewKind, byteOffset: nat, length: nat, size: nat) {
    byteOffset % ElementSize(kind) == 0 && byteOffset + length * ElementSize(kind) <= size
  }

  // ---------------------------------------------------------------------------------
  // The graph: edges, paths, what cannot be cloned
  // ---------------------------------------------------------------------------------

  function Firsts<A, B>(s: seq<(A, B)>): seq<A> { seq(|s|, i requires 0 <= i < |s| => s[i].0) }
  function Seconds<A, B>(s: seq<(A, B)>): seq<B> { seq(|s|, i requires 0 <= i < |s| => s[i].1) }

  function Kids(n: Node): seq<Value> {
    match n
    case ArrayNode(elems) => elems
    case PlainNode(props) => Seconds(props)
    case MapNode(entries) => Firsts(entries) + Seconds(entries)
    case SetNode(members) => members
    case ViewNode(_, buffer, _, _) => [buffer]
    case _ => []
  }

  predicate Supported(n: Node) {
    !n.FunctionNode? && !n.OtherNode? && (n.BufferNode? ==> !n.detached)
  }

  predicate Unsupported(h: Heap, v: Value) {
    v.Symbol? || (v.Object? && v.ref in h && !Supported(h[v.ref]))
  }

  predicate Edge(h: Heap, v: Value, w: Value) {
    v.Object? && v.ref in h && w in Kids(h[v.ref])
  }

  predicate IsPath(h: Heap, p: seq<Value>) {
    |p| > 0 && forall i :: 0 <= i < |p| - 1 ==> Edge(h, p[i], p[i + 1])
  }

  ghost predicate Reach(h: Heap, v: Value, w: Value) {
    exists p :: IsPath(h, p) && p[0] == v && p[|p| - 1] == w
  }

  predicate Distinct<T(==)>(s: seq<T>) {
    forall i, j :: 0 <= i < j < |s| ==> s[i] != s[j]
  }

  predicate NodeOk(h: Heap, n: Node) {
    && (forall v :: v in Kids(n) ==> v.Object? ==> v.ref in h)
    && (n.PlainNode? ==> Distinct(Firsts(n.props)))
    && (n.MapNode? ==> Distinct(Firsts(n.entries)))
    && (n.SetNode? ==> Distinct(n.members))
    && (n.ViewNode? ==>
          && n.buffer.Object? && n.buffer.ref in h && h[n.buffer.ref].BufferNode?
          && (!h[n.buffer.ref].detached ==> ViewFits(n.kind, n.byteOffset, n.length, |h[n.buffer.ref].bytes|)))
  }

  /** What the JavaScript engine guarantees of every heap. Keys of a Map, members of a Set and
      property names are distinct; values stored as Map keys are compared by SameValueZero,
      which on stored keys is equality. */
  predicate WellFormed(h: Heap) {
    forall r {:trigger NodeOk(h, h[r])} :: r in h ==> NodeOk(h, h[r])
  }

  lemma EdgeStaysInHeap(h: Heap, v: Value, w: Value)
    requires WellFormed(h) && Edge(h, v, w)
    ensures w.Object? ==> w.ref in h
  {
    assert NodeOk(h, h[v.ref]);
  }

  lemma KeysDistinct(h: Heap, r: Ref)
    requires WellFormed(h) && r in h
    ensures h[r].PlainNode? ==> Distinct(Firsts(h[r].props))
    ensures h[r].MapNode? ==> Distinct(Firsts(h[r].entries))
    ensures h[r].SetNode? ==> Distinct(h[r].members)
  {
    assert NodeOk(h, h[r]);
  }

  lemma ReachSelf(h: Heap, v: Value)
    ensures Reach(h, v, v)
  {
    assert IsPath(h, [v]);
  }

  lemma ReachVia(h: Heap, v: Value, u: Value, w: Value)
    requires Edge(h, v, u) && Reach(h, u, w)
    ensures Reach(h, v, w)
  {
    var p :| IsPath(h, p) && p[0] == u && p[|p| - 1] == w;
    var q := [v] + p;
    assert forall i :: 0 <= i < |q| - 1 ==> q[i + 1] == p[i] && (i > 0 ==> q[i] == p[i - 1]);
    assert IsPath(h, q);
  }

  /** A set of values closed under edges contains everything reachable from its members. */
  lemma {:induction false} PathStaysIn(h: Heap, p: seq<Value>, refs: set<Ref>)
    requires IsPath(h, p)
    requires Copied(p[0], refs)
    requires forall r, v :: r in refs && r in h && v in Kids(h[r]) ==> Copied(v, refs)
    ensures Copied(p[|p| - 1], refs)
  {
    if |p| > 1 {
      assert Edge(h, p[0], p[1]);
      assert IsPath(h, p[1..]) by {
        forall i | 0 <= i < |p[1..]| - 1 ensures Edge(h, p[1..][i], p[1..][i + 1]) {
          assert Edge(h, p[i + 1], p[i + 1 + 1]);
        }
      }
      PathStaysIn(h, p[1..], refs);
    }
  }

  // ---------------------------------------------------------------------------------
  // Renaming: what a correct copy of a node looks like
  // ---------------------------------------------------------------------------------

  function Rename(v: Value, f: map<Ref, Ref>): Value {
    if v.Object? && v.ref in f then Object(f[v.ref]) else v
  }

  function RenameAll(s: seq<Value>, f: map<Ref, Ref>): seq<Value> {
    seq(|s|, i requires 0 <= i < |s| => Rename(s[i], f))
  }

  function RenameProps(s: seq<(string, Value)>, f: map<Ref, Ref>): seq<(string, Value)> {
    seq(|s|, i requires 0 <= i < |s| => (s[i].0, Rename(s[i].1, f)))
  }

  function RenameEntries(s: seq<(Value, Value)>, f: map<Ref, Ref>): seq<(Value, Value)> {
    seq(|s|, i requires 0 <= i < |s| => (Rename(s[i].0, f), Rename(s[i].1, f)))
  }

  function RenameNode(n: Node, f: map<Ref, Ref>): Node {
    match n
    case ArrayNode(elems) => ArrayNode(RenameAll(elems, f))
    case PlainNode(props) => PlainNode(RenameProps(props, f))
    case MapNode(entries) => MapNode(RenameEntries(entries, f))
    case SetNode(members) => SetNode(RenameAll(members, f))
    case ViewNode(kind, buffer, byteOffset, length) => ViewNode(kind, Rename(buffer, f), byteOffset, length)
    case _ => n
  }

  predicate Injective(f: map<Ref, Ref>) {
    forall r, s :: r in f && s in f && f[r] == f[s] ==> r == s
  }

  predicate Copied(v: Value, refs: set<Ref>) {
    !v.Symbol? && (v.Object? ==> v.ref in refs)
  }

  predicate Covered(vs: seq<Value>, f: map<Ref, Ref>) {
    forall v :: v in vs ==> Copied(v, f.Keys)
  }

  predicate Extends(f: map<Ref, Ref>, g: map<Ref, Ref>) {
    forall r :: r in f ==> r in g && g[r] == f[r]
  }

  lemma RenameNodeStable(n: Node, f: map<Ref, Ref>, g: map<Ref, Ref>)
    requires Covered(Kids(n), f) && Extends(f, g)
    ensures RenameNode(n, f) == RenameNode(n, g)
  {
    forall v | v in Kids(n) ensures Rename(v, f) == Rename(v, g) {}
    match n
    case ArrayNode(elems) => assert RenameAll(elems, f) == RenameAll(elems, g);
    case PlainNode(props) =>
      forall i | 0 <= i < |props| ensures props[i].1 in Kids(n) { assert Seconds(props)[i] == props[i].1; }
      assert RenameProps(props, f) == RenameProps(props, g);
    case MapNode(entries) =>
      forall i | 0 <= i < |entries| ensures entries[i].0 in Kids(n) && entries[i].1 in Kids(n) {
        assert Kids(n)[i] == entries[i].0 && Kids(n)[|entries| + i] == entries[i].1;
      }
      assert RenameEntries(entries, f) == RenameEntries(entries, g);
    case SetNode(members) => assert RenameAll(members, f) == RenameAll(members, g);
    case _ =>
  }

  /** Renaming by an injection whose targets are fresh keeps values apart: this is why the keys
      of a cloned Map and the members of a cloned Set never collide. */
  lemma RenameInjective(f: map<Ref, Ref>, v: Value, w: Value)
    requires Injective(f) && Copied(v, f.Keys) && Copied(w, f.Keys)
    ensures Rename(v, f) == Rename(w, f) <==> v == w
  {
  }

  // ---------------------------------------------------------------------------------
  // The same, field by field
  // ---------------------------------------------------------------------------------

  /** y is the copy of x: a primitive is its own copy, an object's copy is where f takes it. */
  predicate Image(x: Value, y: Value, f: map<Ref, Ref>) {
    match x
    case Object(r) => y.Object? && r in f && y.ref == f[r]
    case _ => y == x
  }

  /** b copies a: a node of the same kind, which holds the same data, and at every index the copy of what a
      holds there. */
  predicate NodeCopied(a: Node, b: Node, f: map<Ref, Ref>) {
    match a
    case ArrayNode(elems) =>
      b.ArrayNode? && |b.elems| == |elems| && forall i :: 0 <= i < |elems| ==> Image(elems[i], b.elems[i], f)
    case PlainNode(props) =>
      b.PlainNode? && |b.props| == |props|
      && forall i :: 0 <= i < |props| ==> b.props[i].0 == props[i].0 && Image(props[i].1, b.props[i].1, f)
    case MapNode(entries) =>
      b.MapNode? && |b.entries| == |entries|
      && forall i :: 0 <= i < |entries| ==> Image(entries[i].0, b.entries[i].0, f) && Image(entries[i].1, b.entries[i].1, f)
    case SetNode(members) =>
      b.SetNode? && |b.members| == |members| && forall i :: 0 <= i < |members| ==> Image(members[i], b.members[i], f)
    case DateNode(time) => b.DateNode? && b.time == time
    case RegExpNode(source, flags) => b.RegExpNode? && b.source == source && b.flags == flags
    case BufferNode(bytes, detached) => b.BufferNode? && b.bytes == bytes && b.detached == detached
    case ViewNode(kind, buffer, byteOffset, length) =>
      b.ViewNode? && b.kind == kind && b.byteOffset == byteOffset && b.length == length && Image(buffer, b.buffer, f)
    case FunctionNode => false
    case OtherNode(_) => false
  }

  lemma ImageOfCovered(vs: seq<Value>, i: nat, f: map<Ref, Ref>)
    requires Covered(vs, f) && i < |vs|
    ensures Image(vs[i], Rename(vs[i], f), f)
  {
    assert Copied(vs[i], f.Keys);
  }

  lemma RenamedIsCopied(n: Node, f: map<Ref, Ref>)
    requires Supported(n) && Covered(Kids(n), f)
    ensures NodeCopied(n, RenameNode(n, f), f)
  {
    hide Covered, Image, Rename;
    forall i | 0 <= i < |Kids(n)| ensures Image(Kids(n)[i], Rename(Kids(n)[i], f), f) {
      ImageOfCovered(Kids(n), i, f);
    }
    match n
    case PlainNode(props) => PropsCopied(props, f);
    case MapNode(entries) => EntriesCopied(entries, f);
    case ViewNode(_, buffer, _, _) => assert Kids(n)[0] == buffer;
    case _ =>
  }

  lemma PropsCopied(props: seq<(string, Value)>, f: map<Ref, Ref>)
    requires forall i :: 0 <= i < |props| ==> Image(Seconds(props)[i], Rename(Seconds(props)[i], f), f)
    ensures NodeCopied(PlainNode(props), PlainNode(RenameProps(props, f)), f)
  {
    hide Image, Rename;
    forall i | 0 <= i < |props| ensures Image(props[i].1, RenameProps(props, f)[i].1, f) {
      assert Seconds(props)[i] == props[i].1;
    }
  }

  lemma EntriesCopied(entries: seq<(Value, Value)>, f: map<Ref, Ref>)
    requires var kids := Firsts(entries) + Seconds(entries);
      forall i :: 0 <= i < |kids| ==> Image(kids[i], Rename(kids[i], f), f)
    ensures NodeCopied(MapNode(entries), MapNode(RenameEntries(entries, f)), f)
  {
    hide Image, Rename;
    var kids := Firsts(entries) + Seconds(entries);
    forall i | 0 <= i < |entries|
      ensures Image(entries[i].0, RenameEntries(entries, f)[i].0, f) && Image(entries[i].1, RenameEntries(entries, f)[i].1, f)
    {
      assert kids[i] == entries[i].0 && kids[|entries| + i] == entries[i].1;
    }
  }

  /** What can be cloned, by name. */
  lemma SupportedKinds(n: Node)
    ensures Supported(n) <==>
      n.ArrayNode? || n.PlainNode? || n.MapNode? || n.SetNode? || n.DateNode? || n.RegExpNode? || n.ViewNode?
      || (n.BufferNode? && !n.detached)
  {
  }

  // ---------------------------------------------------------------------------------
  // The JavaScript containers being filled
  // ---------------------------------------------------------------------------------

  /** Map.prototype.set, and assignment to a named property. */
  function Assign<K(==), V>(s: seq<(K, V)>, k: K, v: V): seq<(K, V)> {
    if s == [] then [(k, v)]
    else if s[0].0 == k then [(k, v)] + s[1..]
    else [s[0]] + Assign(s[1..], k, v)
  }

  /** Set.prototype.add. */
  function Add(s: seq<Value>, v: Value): seq<Value> {
    if v in s then s else s + [v]
  }

  /** Assignment to an array index at most the length. */
  function AssignIndex(s: seq<Value>, i: nat, v: Value): seq<Value>
    requires i <= |s|
  {
    if i < |s| then s[i := v] else s + [v]
  }

  lemma {:induction false} AssignNewKey<K, V>(s: seq<(K, V)>, k: K, v: V)
    requires forall i :: 0 <= i < |s| ==> s[i].0 != k
    ensures Assign(s, k, v) == s + [(k, v)]
  {
    if s != [] {
      AssignNewKey(s[1..], k, v);
      assert [s[0]] + (s[1..] + [(k, v)]) == s + [(k, v)];
    }
  }

  // ---------------------------------------------------------------------------------
  // Filling a copy entry by entry
  // ---------------------------------------------------------------------------------

  predicate Container(n: Node) {
    n.ArrayNode? || n.PlainNode? || n.MapNode? || n.SetNode?
  }

  function Size(n: Node): nat {
    match n
    case ArrayNode(elems) => |elems|
    case PlainNode(props) => |props|
    case MapNode(entries) => |entries|
    case SetNode(members) => |members|
    case _ => 0
  }

  function Prefix(n: Node, i: nat): Node
    requires i <= Size(n)
  {
    match n
    case ArrayNode(elems) => ArrayNode(elems[..i])
    case PlainNode(props) => PlainNode(props[..i])
    case MapNode(entries) => MapNode(entries[..i])
    case SetNode(members) => SetNode(members[..i])
    case _ => n
  }

  function EntryKids(n: Node, i: nat): seq<Value>
    requires i < Size(n)
  {
    match n
    case ArrayNode(elems) => [elems[i]]
    case PlainNode(props) => [props[i].1]
    case MapNode(entries) => [entries[i].0, entries[i].1]
    case SetNode(members) => [members[i]]
  }

  /** Entry i of n, its children renamed by f, stored into the copy. */
  function Store(copy: Node, n: Node, i: nat, f: map<Ref, Ref>): Node
    requires i < Size(n)
  {
    match (n, copy)
    case (ArrayNode(elems), ArrayNode(to)) =>
      if i <= |to| then ArrayNode(AssignIndex(to, i, Rename(elems[i], f))) else copy
    case (PlainNode(props), PlainNode(to)) => PlainNode(Assign(to, props[i].0, Rename(props[i].1, f)))
    case (MapNode(entries), MapNode(to)) => MapNode(Assign(to, Rename(entries[i].0, f), Rename(entries[i].1, f)))
    case (SetNode(members), SetNode(to)) => SetNode(Add(to, Rename(members[i], f)))
    case _ => copy
  }

  lemma PrefixEmpty(n: Node, f: map<Ref, Ref>)
    requires Container(n)
    ensures Kids(Prefix(n, 0)) == [] && RenameNode(Prefix(n, 0), f) == Prefix(n, 0)
  {
  }

  lemma PrefixFull(n: Node)
    ensures Prefix(n, Size(n)) == n
  {
  }

  lemma CoveredKept(s: seq<Value>, f: map<Ref, Ref>, g: map<Ref, Ref>)
    requires Covered(s, f) && Extends(f, g)
    ensures Covered(s, g)
  {
  }

  lemma EntryKidsAreKids(n: Node, i: nat)
    requires i < Size(n)
    ensures forall v :: v in EntryKids(n, i) ==> v in Kids(n)
  {
    match n
    case PlainNode(props) => assert Seconds(props)[i] == props[i].1;
    case MapNode(entries) =>
      assert Kids(n)[i] == entries[i].0 && Kids(n)[|entries| + i] == entries[i].1;
    case _ =>
  }

  lemma PrefixKids(n: Node, i: nat, f: map<Ref, Ref>)
    requires i < Size(n) && Covered(Kids(Prefix(n, i)), f) && Covered(EntryKids(n, i), f)
    ensures Covered(Kids(Prefix(n, i + 1)), f)
  {
    match n
    case ArrayNode(elems) => CoveredAppend(elems, i, f);
    case PlainNode(props) =>
      CoveredSplit(Seconds(props[..i]), Seconds(props[..i + 1]), props[i].1, f);
    case MapNode(entries) =>
      CoveredConcat(Firsts(entries[..i]), Seconds(entries[..i]), f);
      assert entries[i].0 in EntryKids(n, i) && entries[i].1 in EntryKids(n, i);
      CoveredSplit(Firsts(entries[..i]), Firsts(entries[..i + 1]), entries[i].0, f);
      CoveredSplit(Seconds(entries[..i]), Seconds(entries[..i + 1]), entries[i].1, f);
      CoveredConcat(Firsts(entries[..i + 1]), Seconds(entries[..i + 1]), f);
    case SetNode(members) => CoveredAppend(members, i, f);
  }

  lemma CoveredConcat(s: seq<Value>, t: seq<Value>, f: map<Ref, Ref>)
    ensures Covered(s + t, f) <==> Covered(s, f) && Covered(t, f)
  {
    forall v ensures v in s + t <==> v in s || v in t {}
  }

  lemma CoveredAppend(s: seq<Value>, i: nat, f: map<Ref, Ref>)
    requires i < |s| && Covered(s[..i], f) && Covered([s[i]], f)
    ensures Covered(s[..i + 1], f)
  {
    assert s[..i + 1] == s[..i] + [s[i]];
    CoveredConcat(s[..i], [s[i]], f);
  }

  lemma CoveredSplit(s: seq<Value>, t: seq<Value>, v: Value, f: map<Ref, Ref>)
    requires t == s + [v] && Covered(s, f) && Copied(v, f.Keys)
    ensures Covered(t, f)
  {
    CoveredConcat(s, [v], f);
  }

  /** Storing entry i appends it: in a Map, a Set and an object because distinct keys stay distinct
      under an injective renaming. */
  lemma StoreStep(n: Node, i: nat, f: map<Ref, Ref>)
    requires i < Size(n) && Covered(Kids(Prefix(n, i)), f) && Covered(EntryKids(n, i), f)
    requires Injective(f)
    requires n.PlainNode? ==> Distinct(Firsts(n.props))
    requires n.MapNode? ==> Distinct(Firsts(n.entries))
    requires n.SetNode? ==> Distinct(n.members)
    ensures Store(RenameNode(Prefix(n, i), f), n, i, f) == RenameNode(Prefix(n, i + 1), f)
    ensures Covered(Kids(Prefix(n, i + 1)), f)
  {
    PrefixKids(n, i, f);
    match n
    case ArrayNode(elems) =>
    case PlainNode(props) => StoreProp(props, i, f);
    case MapNode(entries) =>
      CoveredConcat(Firsts(entries[..i]), Seconds(entries[..i]), f);
      assert entries[i].0 in EntryKids(n, i);
      StoreEntry(entries, i, f);
    case SetNode(members) => StoreMember(members, i, f);
  }

  lemma StoreProp(props: seq<(string, Value)>, i: nat, f: map<Ref, Ref>)
    requires i < |props| && Distinct(Firsts(props))
    ensures Assign(RenameProps(props[..i], f), props[i].0, Rename(props[i].1, f)) == RenameProps(props[..i + 1], f)
  {
    forall k | 0 <= k < i ensures props[k].0 != props[i].0 {
      assert Firsts(props)[k] != Firsts(props)[i];
    }
    AssignNewKey(RenameProps(props[..i], f), props[i].0, Rename(props[i].1, f));
  }

  lemma StoreEntry(entries: seq<(Value, Value)>, i: nat, f: map<Ref, Ref>)
    requires i < |entries| && Distinct(Firsts(entries)) && Injective(f)
    requires Covered(Firsts(entries[..i]), f) && Copied(entries[i].0, f.Keys)
    ensures Assign(RenameEntries(entries[..i], f), Rename(entries[i].0, f), Rename(entries[i].1, f))
         == RenameEntries(entries[..i + 1], f)
  {
    forall k | 0 <= k < i ensures Rename(entries[k].0, f) != Rename(entries[i].0, f) {
      assert Firsts(entries)[k] != Firsts(entries)[i];
      assert Firsts(entries[..i])[k] in Firsts(entries[..i]);
      RenameInjective(f, entries[k].0, entries[i].0);
    }
    AssignNewKey(RenameEntries(entries[..i], f), Rename(entries[i].0, f), Rename(entries[i].1, f));
  }

  lemma StoreMember(members: seq<Value>, i: nat, f: map<Ref, Ref>)
    requires i < |members| && Distinct(members) && Injective(f)
    requires Covered(members[..i], f) && Covered([members[i]], f)
    ensures Add(RenameAll(members[..i], f), Rename(members[i], f)) == RenameAll(members[..i + 1], f)
  {
    forall k | 0 <= k < i ensures RenameAll(members[..i], f)[k] != Rename(members[i], f) {
      assert members[..i][k] in members[..i] && members[i] in [members[i]];
      RenameInjective(f, members[k], members[i]);
    }
  }

  lemma BlameThrough(h: Heap, v: Value, u: Value)
    requires Edge(h, v, u)
    requires exists w :: Reach(h, u, w) && Unsupported(h, w)
    ensures exists w :: Reach(h, v, w) && Unsupported(h, w)
  {
    var w :| Reach(h, u, w) && Unsupported(h, w);
    ReachVia(h, v, u, w);
  }

  lemma LeafReachesItself(h: Heap, v: Value, w: Value)
    requires Reach(h, v, w)
    requires v.Object? ==> v.ref in h && Kids(h[v.ref]) == []
    ensures v == w
  {
    var p :| IsPath(h, p) && p[0] == v && p[|p| - 1] == w;
    assert |p| > 1 ==> Edge(h, p[0], p[0 + 1]);
  }
}
