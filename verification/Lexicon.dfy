/** Building the lexicon's trie from sorted entries, and looking keys up in it. */
module Lexicon {
  import opened Wrappers
  import opened Order
  import opened Basics
  import opened Trie
  import opened TrieGrowth

  datatype Entry = Entry(key: seq<Byte>, word: seq<Byte>, frequency: nat, offensive: bool, languages: set<nat>)

  /** How often the 16-bit form count of a node wraps. */
  const COUNT_WRAP := 65536

  ghost predicate SortedByKey(es: seq<Entry>) {
    forall i, j | 0 <= i < j < |es| :: InOrder(es[i], es[j])
  }

  ghost predicate InOrder(a: Entry, b: Entry) {
    LessEq(a.key, b.key)
  }

  // ---------------------------------------------------------------- reference: linear scan

  /** Number of entries written with key `k`. */
  function Forms(es: seq<Entry>, k: seq<Byte>): nat {
    if es == [] then 0 else Forms(es[..|es| - 1], k) + if es[|es| - 1].key == k then 1 else 0
  }

  /** Index of the first of them, or the number of entries if there is none. */
  function First(es: seq<Entry>, k: seq<Byte>): (f: nat)
    ensures f <= |es|
  {
    if es == [] then 0
    else
      var f := First(es[..|es| - 1], k);
      if f < |es| - 1 || es[|es| - 1].key == k then f else |es|
  }

  lemma {:induction false} NoForms(es: seq<Entry>, k: seq<Byte>)
    requires forall e | 0 <= e < |es| :: es[e].key != k
    ensures Forms(es, k) == 0 && First(es, k) == |es|
    decreases |es|
  {
    if es != [] { NoForms(es[..|es| - 1], k); }
  }

  /** Between two entries of one key there is no other key. */
  lemma KeyBetween(es: seq<Entry>, f: nat, m: nat, n: nat)
    requires SortedByKey(es) && f <= m <= n < |es| && es[f].key == es[n].key
    ensures es[m].key == es[f].key
  {
    Trichotomy(es[f].key, es[m].key);
    assert f < m ==> InOrder(es[f], es[m]);
    assert m < n ==> InOrder(es[m], es[n]);
  }

  /** In sorted entries the forms of a key are adjacent. */
  lemma {:induction false} FormsAdjacent(es: seq<Entry>, k: seq<Byte>)
    requires SortedByKey(es)
    ensures First(es, k) + Forms(es, k) <= |es|
    ensures forall e | 0 <= e < |es| :: es[e].key == k <==> First(es, k) <= e < First(es, k) + Forms(es, k)
    decreases |es|
  {
    if es != [] {
      var n, init := |es| - 1, es[..|es| - 1];
      FormsAdjacent(init, k);
      var f := First(init, k);
      if Forms(init, k) == 0 {
        NoForms(init, k);
      } else if es[n].key == k {
        assert init[f].key == k;
        KeyBetween(es, f, n - 1, n);
        assert init[n - 1].key == k;
      }
      forall e | 0 <= e < |es|
        ensures es[e].key == k <==> First(es, k) <= e < First(es, k) + Forms(es, k)
      {
        assert e < n ==> init[e] == es[e];
      }
    }
  }

  /** What a node's count and start hold for `m` forms from entry `f` on. */
  ghost predicate HoldsRun(node: Node, f: nat, m: nat) {
    && node.entryCount == m % COUNT_WRAP
    && node.entryStart == if m == 0 then 0 else f + (m - 1) / COUNT_WRAP * COUNT_WRAP
  }

  ghost predicate RunOk(node: Node, es: seq<Entry>, k: seq<Byte>) {
    HoldsRun(node, First(es, k), Forms(es, k))
  }

  function Counted(node: Node, index: nat): Node {
    node.(entryStart := if node.entryCount == 0 then index else node.entryStart,
          entryCount := (node.entryCount + 1) % COUNT_WRAP)
  }

  lemma CountWraps(node: Node, f: nat, m: nat)
    requires HoldsRun(node, f, m)
    ensures HoldsRun(Counted(node, f + m), f, m + 1)
  {
  }

  /** One more entry, seen from the node of its key and from any other node. */
  lemma CountEntry(es: seq<Entry>, n: nat, node: Node, k: seq<Byte>)
    requires SortedByKey(es) && n < |es| && RunOk(node, es[..n], k)
    ensures RunOk(if es[n].key == k then Counted(node, n) else node, es[..n + 1], k)
  {
    var init, next := es[..n], es[..n + 1];
    assert next[..n] == init;
    var m, f := Forms(init, k), First(init, k);
    if m == 0 { NoFormsThenNone(init, k); } else { FormsAdjacent(init, k); }
    if es[n].key == k {
      FormsAdjacent(next, k);
      assert next[n].key == k;
      assert f + m == n;
      CountWraps(node, f, m);
    }
  }

  lemma {:induction false} NoFormsThenNone(es: seq<Entry>, k: seq<Byte>)
    requires Forms(es, k) == 0
    ensures First(es, k) == |es|
    decreases |es|
  {
    if es != [] { NoFormsThenNone(es[..|es| - 1], k); }
  }

  // ---------------------------------------------------------------- what the builder keeps

  /** `t` is the trie of `es`: it holds every key, no other branch, and the forms of each. */
  ghost predicate Stores(t: Trie, es: seq<Entry>) {
    && t.Valid()
    && (forall e {:trigger HasKey(t, es[e].key)} | 0 <= e < |es| :: HasKey(t, es[e].key))
    && (forall i {:trigger Needed(t.keys[i], es)} | 1 <= i < |t.keys| :: Needed(t.keys[i], es))
    && (forall i {:trigger RunOk(t.nodes[i], es, t.keys[i])} | 0 <= i < |t.nodes| :: RunOk(t.nodes[i], es, t.keys[i]))
  }

  ghost predicate HasKey(t: Trie, k: seq<Byte>) {
    exists i :: 0 <= i < |t.keys| && t.keys[i] == k
  }

  ghost predicate Needed(k: seq<Byte>, es: seq<Entry>) {
    exists e :: 0 <= e < |es| && k <= es[e].key
  }

  ghost predicate SameLinks(a: seq<Node>, b: seq<Node>) {
    && |a| == |b|
    && forall i | 0 <= i < |a| ::
         a[i].firstChild == b[i].firstChild && a[i].nextSibling == b[i].nextSibling && a[i].byte == b[i].byte
  }

  /** Counts and maxima play no part in the shape of the trie. */
  lemma LinksDecide(t: Trie, nodes: seq<Node>)
    requires t.Valid() && SameLinks(t.nodes, nodes)
    ensures Trie(nodes, t.parent, t.keys).Valid()
  {
    var u := Trie(nodes, t.parent, t.keys);
    forall i | 1 <= i < |nodes| ensures u.Linked(i) { assert t.Linked(i); }
    forall c, j | 0 <= c < j < |nodes| ensures u.Nested(c, j) { assert t.Nested(c, j); }
    forall i | 0 <= i < |nodes| ensures u.FirstChildOk(i) && u.NextSiblingOk(i) {
      assert t.FirstChildOk(i) && t.NextSiblingOk(i);
    }
    forall i, j | 0 <= i < j < |nodes| ensures u.Differ(i, j) { assert t.Differ(i, j); }
  }

  lemma StandingKept(t: Trie, nodes: seq<Node>, path: seq<nat>, last: seq<nat>, cur: seq<Byte>)
    requires t.Valid() && SameLinks(t.nodes, nodes) && Standing(t, path, last, cur)
    ensures Trie(nodes, t.parent, t.keys).Valid() && Standing(Trie(nodes, t.parent, t.keys), path, last, cur)
  {
    LinksDecide(t, nodes);
    var u := Trie(nodes, t.parent, t.keys);
    forall d | 0 <= d <= |cur| ensures OnPath(u, path[d], cur[..d]) { assert OnPath(t, path[d], cur[..d]); }
  }

  /** `u` is `t` with a branch for the rest of `key`, on which nothing is counted yet. */
  ghost predicate Extends(u: Trie, t: Trie, key: seq<Byte>) {
    && |t.nodes| <= |u.nodes| == |u.keys| && |t.nodes| == |t.keys|
    && u.keys[..|t.keys|] == t.keys
    && (forall i | 0 <= i < |t.nodes| :: SameCounts(u.nodes[i], t.nodes[i]))
    && (forall i | |t.nodes| <= i < |u.nodes| ::
          u.keys[i] <= key && SameCounts(u.nodes[i], Node(NONE, NONE, 0, 0, 0, 0)))
  }

  ghost predicate SameCounts(a: Node, b: Node) {
    a.best == b.best && a.entryCount == b.entryCount && a.entryStart == b.entryStart
  }

  /** The vectors the builder works on: the nodes and their parents, the path to the key
      stored last, and the last child of each path node. */
  datatype Builder = Builder(nodes: seq<Node>, parent: seq<int>, path: seq<nat>, last: seq<nat>) {
    ghost function Shape(keys: seq<seq<Byte>>): Trie {
      Trie(nodes, parent, keys)
    }

    ghost predicate At(keys: seq<seq<Byte>>, cur: seq<Byte>) {
      Shape(keys).Valid() && Standing(Shape(keys), path, last, cur)
    }

    /** The next node below the path may take byte `b`. */
    ghost predicate MayTake(d: nat, b: Byte)
      requires d < |last|
    {
      last[d] != NONE ==> last[d] < |nodes| && nodes[last[d]].byte < b
    }
  }

  lemma ExtendsGrown(u: Trie, t: Trie, key: seq<Byte>, top: nat, last: nat, d: nat)
    requires u.Valid() && Extends(u, t, key) && d < |key|
    requires top < |u.nodes| && last < |u.nodes| && u.keys[top] == key[..d]
    ensures Extends(Grown(u, top, last, key[d]), t, key)
  {
    var g := Grown(u, top, last, key[d]);
    assert g.keys[..|t.keys|] == u.keys[..|t.keys|];
    assert g.keys[|u.keys|] == key[..d + 1];
  }

  /** Adds the node for one more byte of `key`. */
  method AddNode(start: Builder, key: seq<Byte>, d: nat, ghost keys0: seq<seq<Byte>>)
    returns (b: Builder, ghost keys: seq<seq<Byte>>)
    requires d < |key| && start.At(keys0, key[..d]) && start.MayTake(d, key[d])
    ensures b.At(keys, key[..d + 1]) && b.last[d + 1] == NONE
    ensures OnPath(start.Shape(keys0), start.path[d], key[..d])
    ensures b.Shape(keys) == Grown(start.Shape(keys0), start.path[d], start.last[d], key[d])
  {
    ghost var u, cur := start.Shape(keys0), key[..d];
    assert key[..d + 1] == cur + [key[d]];
    var owner, node, sibling := start.path[d], |start.nodes|, start.last[d];
    Grow(u, start.path, start.last, cur, key[d]);
    assert OnPath(u, owner, cur[..d]) && cur[..d] == cur;
    keys := keys0 + [keys0[owner] + [key[d]]];
    b := Builder(Hooked(start.nodes, owner, sibling) + [Node(NONE, NONE, key[d], 0, 0, 0)],
                 start.parent + [owner], start.path + [node], start.last[d := node] + [NONE]);
    assert b.Shape(keys) == Grown(u, owner, sibling, key[d]);
  }

  /** Adds the nodes that lead from the first `common` bytes of `key` to all of it. */
  method Extend(start: Builder, key: seq<Byte>, common: nat, ghost keys0: seq<seq<Byte>>)
    returns (b: Builder, ghost keys: seq<seq<Byte>>)
    requires common <= |key| && start.At(keys0, key[..common])
    requires if common < |key| then start.MayTake(common, key[common]) else start.last[common] == NONE
    ensures b.At(keys, key) && b.last[|key|] == NONE
    ensures Extends(b.Shape(keys), start.Shape(keys0), key)
  {
    b, keys := start, keys0;
    var d := common;
    while d < |key|
      invariant common <= d <= |key| && b.At(keys, key[..d])
      invariant if d < |key| then b.MayTake(d, key[d]) else b.last[d] == NONE
      invariant Extends(b.Shape(keys), start.Shape(keys0), key)
    {
      ghost var u, owner, sibling := b.Shape(keys), b.path[d], b.last[d];
      b, keys := AddNode(b, key, d, keys);
      ExtendsGrown(u, start.Shape(keys0), key, owner, sibling, d);
      d := d + 1;
    }
    assert key[..d] == key;
  }

  /** On a new branch nothing was counted because no earlier entry has its keys. */
  lemma RunsKept(t: Trie, u: Trie, es: seq<Entry>, key: seq<Byte>, i: nat)
    requires Stores(t, es) && u.Valid() && Extends(u, t, key) && i < |u.nodes|
    ensures RunOk(u.nodes[i], es, u.keys[i])
  {
    if i < |t.nodes| {
      assert RunOk(t.nodes[i], es, t.keys[i]) && u.keys[..|t.keys|][i] == u.keys[i];
    } else {
      forall e | 0 <= e < |es| ensures es[e].key != u.keys[i] {
        assert HasKey(t, es[e].key);
        var j :| 0 <= j < |t.keys| && t.keys[j] == es[e].key;
        assert u.keys[..|t.keys|][j] == u.keys[j];
        assert u.Differ(j, i);
      }
      NoForms(es, u.keys[i]);
    }
  }

  lemma KeysKept(t: Trie, u: Trie, es: seq<Entry>, n: nat, i: nat, e: nat)
    requires e <= n < |es| && Stores(t, es[..n]) && Extends(u, t, es[n].key)
    requires i < |u.keys| && u.keys[i] == es[n].key
    ensures HasKey(u, es[e].key)
  {
    if e < n {
      assert HasKey(t, es[..n][e].key);
      var j :| 0 <= j < |t.keys| && t.keys[j] == es[e].key;
      assert u.keys[..|t.keys|][j] == u.keys[j];
    }
  }

  lemma BranchesNeeded(t: Trie, u: Trie, es: seq<Entry>, n: nat, j: nat)
    requires n < |es| && Stores(t, es[..n]) && Extends(u, t, es[n].key) && 1 <= j < |u.keys|
    ensures Needed(u.keys[j], es[..n + 1])
  {
    var next := es[..n + 1];
    if j < |t.keys| {
      assert u.keys[..|t.keys|][j] == u.keys[j];
      assert Needed(t.keys[j], es[..n]);
      var e :| 0 <= e < n && t.keys[j] <= es[..n][e].key;
      assert next[e] == es[..n][e];
    } else {
      assert u.keys[j] <= next[n].key;
    }
  }

  /** Extending the branch and counting the entry stores one more entry. */
  lemma StoreEntry(t: Trie, u: Trie, es: seq<Entry>, n: nat, i: nat)
    requires SortedByKey(es) && n < |es| && Stores(t, es[..n])
    requires u.Valid() && Extends(u, t, es[n].key) && i < |u.nodes| && u.keys[i] == es[n].key
    ensures Stores(Trie(u.nodes[i := Counted(u.nodes[i], n)], u.parent, u.keys), es[..n + 1])
  {
    var v, next := Trie(u.nodes[i := Counted(u.nodes[i], n)], u.parent, u.keys), es[..n + 1];
    LinksDecide(u, v.nodes);
    forall e | 0 <= e < |next| ensures HasKey(v, next[e].key) {
      KeysKept(t, u, es, n, i, e);
      var j :| 0 <= j < |u.keys| && u.keys[j] == es[e].key;
      assert v.keys[j] == next[e].key;
    }
    forall j | 1 <= j < |v.keys| ensures Needed(v.keys[j], next) {
      BranchesNeeded(t, u, es, n, j);
    }
    forall j | 0 <= j < |v.nodes| ensures RunOk(v.nodes[j], next, v.keys[j]) {
      RunsKept(t, u, es[..n], es[n].key, j);
      CountEntry(es, n, u.nodes[j], u.keys[j]);
      u.KeysIdentify(i, j);
    }
  }

  /** Keys arrive sorted, so the next key branches off to the right of the one before. */
  lemma Turn(t: Trie, path: seq<nat>, last: seq<nat>, previous: seq<Byte>, key: seq<Byte>)
    requires t.Valid() && Standing(t, path, last, previous) && last[|previous|] == NONE
    requires LessEq(previous, key)
    ensures var c := Common(key, previous);
            && Standing(t, path[..c + 1], last[..c + 1], key[..c])
            && (c < |key| && last[c] != NONE ==> last[c] < |t.nodes| && t.nodes[last[c]].byte < key[c])
            && (c == |key| ==> last[c] == NONE)
  {
    var c := Common(key, previous);
    Retreat(t, path, last, previous, c);
    CommonIs(key, previous, Common(previous, key));
    if previous == key { CommonIs(key, previous, |key|); }
  }

  /** The trie holds the entries so far, and the path is at the end of `key`. */
  ghost predicate Holding(b: Builder, keys: seq<seq<Byte>>, es: seq<Entry>, key: seq<Byte>) {
    && Stores(b.Shape(keys), es) && b.At(keys, key) && b.last[|key|] == NONE
    && forall i | 0 <= i < |b.nodes| :: b.nodes[i].best == 0
  }

  /** Stores entry `n` behind the key stored last. */
  method Store(start: Builder, es: seq<Entry>, n: nat, previous: seq<Byte>, ghost keys0: seq<seq<Byte>>)
    returns (b: Builder, ghost keys: seq<seq<Byte>>)
    requires SortedByKey(es) && n < |es| && LessEq(previous, es[n].key)
    requires Holding(start, keys0, es[..n], previous)
    ensures Holding(b, keys, es[..n + 1], es[n].key)
  {
    var key := es[n].key;
    var common := Common(key, previous);
    ghost var t := start.Shape(keys0);
    Turn(t, start.path, start.last, previous, key);
    b := start.(path := start.path[..common + 1], last := start.last[..common + 1]);
    b, keys := Extend(b, key, common, keys0);
    ghost var u := b.Shape(keys);
    var node := b.path[|key|];
    assert OnPath(u, node, key[..|key|]) && key[..|key|] == key;
    StoreEntry(t, u, es, n, node);
    b := b.(nodes := b.nodes[node := Counted(b.nodes[node], n)]);
    StandingKept(u, b.nodes, b.path, b.last, key);
  }

  lemma RootAlone(b: Builder, keys: seq<seq<Byte>>)
    requires b == Builder([Node(NONE, NONE, 0, 0, 0, 0)], [-1], [ROOT], [NONE]) && keys == [[]]
    ensures Stores(b.Shape(keys), []) && b.At(keys, [])
  {
  }

  /** All nodes, numbered in preorder, with the forms of every key counted. */
  method BuildNodes(es: seq<Entry>) returns (nodes: seq<Node>, parent: seq<int>, ghost keys: seq<seq<Byte>>)
    requires SortedByKey(es) && forall e | 0 <= e < |es| :: es[e].key != []
    ensures Stores(Trie(nodes, parent, keys), es)
    ensures forall i | 0 <= i < |nodes| :: nodes[i].best == 0
  {
    var b := Builder([Node(NONE, NONE, 0, 0, 0, 0)], [-1], [ROOT], [NONE]);
    keys := [[]];
    var previous: seq<Byte> := [];
    RootAlone(b, keys);
    assert es[..0] == [];
    for n := 0 to |es|
      invariant Holding(b, keys, es[..n], previous)
      invariant previous == if n == 0 then [] else es[n - 1].key
    {
      assert n > 0 ==> InOrder(es[n - 1], es[n]);
      b, keys := Store(b, es, n, previous, keys);
      previous := es[n].key;
    }
    assert es[..|es|] == es;
    nodes, parent := b.nodes, b.parent;
  }

  // ---------------------------------------------------------------- subtree maxima

  function Max(a: nat, b: nat): nat {
    if a >= b then a else b
  }

  /** Highest frequency of an offerable entry in a range, 0 for none. */
  function RangeBest(es: seq<Entry>, start: nat, count: nat): nat
    requires start + count <= |es|
  {
    if count == 0 then 0
    else
      var e := es[start + count - 1];
      Max(RangeBest(es, start, count - 1), if e.offensive then 0 else e.frequency)
  }

  lemma {:induction false} RangeBestIsMaximum(es: seq<Entry>, start: nat, count: nat)
    requires start + count <= |es|
    ensures forall e | start <= e < start + count && !es[e].offensive :: es[e].frequency <= RangeBest(es, start, count)
    ensures RangeBest(es, start, count) > 0 ==>
              exists e :: start <= e < start + count && !es[e].offensive
                          && es[e].frequency == RangeBest(es, start, count)
    decreases count
  {
    if count > 0 {
      RangeBestIsMaximum(es, start, count - 1);
      var b := RangeBest(es, start, count - 1);
      if b > 0 {
        var e :| start <= e < start + count - 1 && !es[e].offensive && es[e].frequency == b;
      }
      assert es[start + count - 1].frequency >= 0;
    }
  }

  /** Whatever wrapped, a node's range lies inside the entries. */
  lemma RangeInside(t: Trie, es: seq<Entry>, i: nat)
    requires SortedByKey(es) && Stores(t, es) && i < |t.nodes|
    ensures t.nodes[i].entryStart + t.nodes[i].entryCount <= |es|
  {
    var k := t.keys[i];
    assert RunOk(t.nodes[i], es, k);
    FormsAdjacent(es, k);
    RunInside(t.nodes[i], First(es, k), Forms(es, k));
  }

  lemma RunInside(node: Node, f: nat, m: nat)
    requires HoldsRun(node, f, m)
    ensures node.entryStart + node.entryCount <= f + m
  {
  }

  ghost predicate InRange(nodes: seq<Node>, es: seq<Entry>) {
    forall i | 0 <= i < |nodes| :: nodes[i].entryStart + nodes[i].entryCount <= |es|
  }

  /** The best of a node's own forms. */
  function OwnBest(node: Node, es: seq<Entry>): nat
    requires node.entryStart + node.entryCount <= |es|
  {
    RangeBest(es, node.entryStart, node.entryCount)
  }

  /** `b` is the own best of some node under `i`, or 0. */
  ghost predicate Attained(t: Trie, es: seq<Entry>, i: nat, b: nat)
    requires |t.nodes| == |t.keys| && InRange(t.nodes, es) && i < |t.nodes|
  {
    b == 0 || exists j :: 0 < j < |t.nodes| && t.keys[i] <= t.keys[j] && OwnBest(t.nodes[j], es) == b
  }

  ghost predicate SameButBest(a: seq<Node>, b: seq<Node>) {
    |a| == |b| && forall i | 0 <= i < |a| :: a[i] == b[i].(best := a[i].best)
  }

  /** Node `c` is no better than its own forms or its parent say. */
  ghost predicate Covered(t: Trie, es: seq<Entry>, nodes: seq<Node>, c: nat)
    requires t.Valid() && InRange(t.nodes, es) && |nodes| == |t.nodes| && 0 < c < |nodes|
  {
    nodes[c].best >= OwnBest(t.nodes[c], es) && nodes[t.parent[c]].best >= nodes[c].best
  }

  function Raised(nodes: seq<Node>, i: nat, best: nat): (r: seq<Node>)
    requires i < |nodes|
    ensures |r| == |nodes|
  {
    nodes[i := nodes[i].(best := Max(nodes[i].best, best))]
  }

  /** Raising node `i` by its own forms, and then its parent by node `i`. */
  lemma RaiseKeeps(t: Trie, es: seq<Entry>, was: seq<Node>, i: nat)
    requires t.Valid() && InRange(t.nodes, es) && SameButBest(was, t.nodes) && 0 < i < |was|
    requires forall c | i < c < |was| :: Covered(t, es, was, c)
    requires forall c | 0 <= c < |was| :: Attained(t, es, c, was[c].best)
    ensures var best := Max(was[i].best, OwnBest(was[i], es));
            var nodes := Raised(Raised(was, i, best), t.parent[i], best);
            && SameButBest(nodes, t.nodes)
            && (forall c | i <= c < |nodes| :: Covered(t, es, nodes, c))
            && (forall c | 0 <= c < |nodes| :: Attained(t, es, c, nodes[c].best))
  {
    var best := Max(was[i].best, OwnBest(was[i], es));
    var nodes := Raised(Raised(was, i, best), t.parent[i], best);
    forall c | i <= c < |nodes| ensures Covered(t, es, nodes, c) {
      if c > i { assert Covered(t, es, was, c); }
    }
    assert Attained(t, es, i, best);
    AttainedAbove(t, es, i, best);
    forall c | 0 <= c < |nodes| ensures Attained(t, es, c, nodes[c].best) {
      assert Attained(t, es, c, was[c].best);
    }
  }

  /** Nodes follow their parents, so one pass from the last node to the first carries
      every maximum up to the root. */
  method FillBest(built: seq<Node>, parent: seq<int>, es: seq<Entry>, ghost keys: seq<seq<Byte>>)
    returns (nodes: seq<Node>)
    requires Trie(built, parent, keys).Valid() && InRange(built, es)
    requires forall i | 0 <= i < |built| :: built[i].best == 0
    ensures SameButBest(nodes, built)
    ensures forall i | 1 <= i < |nodes| :: Covered(Trie(built, parent, keys), es, nodes, i)
    ensures forall i | 0 <= i < |nodes| :: Attained(Trie(built, parent, keys), es, i, nodes[i].best)
  {
    nodes := built;
    ghost var t := Trie(built, parent, keys);
    for i := |nodes| downto 1
      invariant SameButBest(nodes, t.nodes)
      invariant forall c | i <= c < |nodes| :: Covered(t, es, nodes, c)
      invariant forall c | 0 <= c < |nodes| :: Attained(t, es, c, nodes[c].best)
    {
      RaiseKeeps(t, es, nodes, i);
      var best := Max(nodes[i].best, OwnBest(nodes[i], es));
      nodes := Raised(nodes, i, best);
      nodes := Raised(nodes, parent[i], best);
    }
  }

  lemma AttainedAbove(t: Trie, es: seq<Entry>, i: nat, b: nat)
    requires t.Valid() && InRange(t.nodes, es) && 0 < i < |t.nodes| && Attained(t, es, i, b)
    ensures Attained(t, es, t.parent[i], b)
  {
    assert t.Linked(i);
  }

  // ---------------------------------------------------------------- the lexicon

  /** The trie of `es` with its subtree maxima in place. */
  ghost predicate IsLexicon(t: Trie, es: seq<Entry>) {
    && SortedByKey(es) && (forall e | 0 <= e < |es| :: es[e].key != [])
    && Stores(t, es) && InRange(t.nodes, es)
    && (forall i | 1 <= i < |t.nodes| :: Covered(t, es, t.nodes, i))
    && (forall i {:trigger Attained(t, es, i, t.nodes[i].best)} | 0 <= i < |t.nodes| ::
          Attained(t, es, i, t.nodes[i].best))
  }

  method Build(es: seq<Entry>) returns (nodes: seq<Node>, parent: seq<int>, ghost keys: seq<seq<Byte>>)
    requires SortedByKey(es) && forall e | 0 <= e < |es| :: es[e].key != []
    ensures IsLexicon(Trie(nodes, parent, keys), es)
  {
    nodes, parent, keys := BuildNodes(es);
    ghost var t := Trie(nodes, parent, keys);
    forall i | 0 <= i < |nodes| ensures nodes[i].entryStart + nodes[i].entryCount <= |es| {
      RangeInside(t, es, i);
    }
    nodes := FillBest(nodes, parent, es, keys);
    BestKeepsStores(t, es, nodes);
    forall i | 0 <= i < |nodes|
      ensures InRange(nodes, es) && Attained(Trie(nodes, parent, keys), es, i, nodes[i].best)
      ensures i > 0 ==> Covered(Trie(nodes, parent, keys), es, nodes, i)
    {
      assert Attained(t, es, i, nodes[i].best);
      BestKeepsMaxima(t, Trie(nodes, parent, keys), es, i);
    }
  }

  lemma BestKeepsStores(t: Trie, es: seq<Entry>, nodes: seq<Node>)
    requires Stores(t, es) && SameButBest(nodes, t.nodes)
    ensures Stores(Trie(nodes, t.parent, t.keys), es)
  {
    var u := Trie(nodes, t.parent, t.keys);
    LinksDecide(t, nodes);
    forall e | 0 <= e < |es| ensures HasKey(u, es[e].key) { assert HasKey(t, es[e].key); }
    forall i | 0 <= i < |nodes| ensures RunOk(nodes[i], es, u.keys[i]) { assert RunOk(t.nodes[i], es, t.keys[i]); }
  }

  lemma BestKeepsMaxima(t: Trie, u: Trie, es: seq<Entry>, i: nat)
    requires t.Valid() && u.Valid() && SameButBest(u.nodes, t.nodes) && u.keys == t.keys && u.parent == t.parent
    requires InRange(t.nodes, es) && i < |u.nodes| && Attained(t, es, i, u.nodes[i].best)
    requires i > 0 ==> Covered(t, es, u.nodes, i)
    ensures InRange(u.nodes, es) && Attained(u, es, i, u.nodes[i].best)
    ensures i > 0 ==> Covered(u, es, u.nodes, i)
  {
    var b := u.nodes[i].best;
    if b > 0 {
      var j :| 0 < j < |t.nodes| && t.keys[i] <= t.keys[j] && OwnBest(t.nodes[j], es) == b;
      assert OwnBest(u.nodes[j], es) == b;
    }
  }

  /** Entry `e` is still in its node's range: the count has not wrapped since it was stored. */
  ghost predicate Visible(es: seq<Entry>, e: nat)
    requires e < |es|
  {
    e >= First(es, es[e].key) + Forms(es, es[e].key) / COUNT_WRAP * COUNT_WRAP
  }

  /** All forms of a key are visible exactly when there are fewer than a 16-bit count holds. */
  lemma AllVisibleIff(es: seq<Entry>, k: seq<Byte>)
    requires SortedByKey(es)
    ensures (forall e | 0 <= e < |es| && es[e].key == k :: Visible(es, e)) <==> Forms(es, k) < COUNT_WRAP
  {
    FormsAdjacent(es, k);
    var (f, m) := (First(es, k), Forms(es, k));
    if m >= COUNT_WRAP {
      assert m / COUNT_WRAP * COUNT_WRAP > 0;
      assert es[f].key == k && !Visible(es, f);
    }
  }

  /** An entry is in the range of the node of its key if it is visible, and in no other. */
  lemma EntryInRange(t: Trie, es: seq<Entry>, i: nat, e: nat)
    requires IsLexicon(t, es) && i < |t.nodes| && e < |es|
    ensures es[e].key == t.keys[i] && Visible(es, e) <==>
            t.nodes[i].entryStart <= e < t.nodes[i].entryStart + t.nodes[i].entryCount
  {
    assert RunOk(t.nodes[i], es, t.keys[i]);
    FormsAdjacent(es, t.keys[i]);
    RunBounds(t.nodes[i], First(es, t.keys[i]), Forms(es, t.keys[i]));
  }

  /** Where the counted run of `m` forms from `f` on begins and ends, if it is not empty. */
  lemma RunBounds(node: Node, f: nat, m: nat)
    requires HoldsRun(node, f, m)
    ensures var skip := m / COUNT_WRAP * COUNT_WRAP;
            && skip <= m && (skip == 0 <==> m < COUNT_WRAP) && (node.entryCount == 0 ==> skip == m)
            && (node.entryCount > 0 ==> node.entryStart == f + skip && node.entryStart + node.entryCount == f + m)
  {
    assert m == m / COUNT_WRAP * COUNT_WRAP + m % COUNT_WRAP;
    if m % COUNT_WRAP > 0 { assert (m - 1) / COUNT_WRAP == m / COUNT_WRAP; }
  }

  lemma {:induction false} BestClimbs(t: Trie, es: seq<Entry>, i: nat, j: nat)
    requires IsLexicon(t, es) && i < |t.nodes| && j < |t.nodes| && t.keys[i] <= t.keys[j]
    ensures t.nodes[i].best >= t.nodes[j].best
    decreases j
  {
    if |t.keys[i]| == |t.keys[j]| {
      t.KeysIdentify(i, j);
    } else {
      assert t.Linked(j) && t.keys[i] <= t.keys[t.parent[j]];
      BestClimbs(t, es, i, t.parent[j]);
      assert Covered(t, es, t.nodes, j);
    }
  }

  /** An entry that can be offered below node `i`. */
  ghost predicate Candidate(t: Trie, es: seq<Entry>, i: nat, e: nat)
    requires i < |t.keys|
  {
    e < |es| && !es[e].offensive && Visible(es, e) && t.keys[i] <= es[e].key
  }

  /** `best` is the highest frequency of the visible inoffensive entries whose key continues
      the node's key, or 0. */
  lemma BestIsSubtreeMaximum(t: Trie, es: seq<Entry>, i: nat)
    requires IsLexicon(t, es) && i < |t.nodes|
    ensures forall e: nat | Candidate(t, es, i, e) :: es[e].frequency <= t.nodes[i].best
    ensures t.nodes[i].best > 0 ==>
              exists e: nat :: Candidate(t, es, i, e) && es[e].frequency == t.nodes[i].best
  {
    forall e: nat | Candidate(t, es, i, e) ensures es[e].frequency <= t.nodes[i].best {
      assert HasKey(t, es[e].key);
      var j :| 0 <= j < |t.keys| && t.keys[j] == es[e].key;
      EntryInRange(t, es, j, e);
      RangeBestIsMaximum(es, t.nodes[j].entryStart, t.nodes[j].entryCount);
      assert j > 0 && Covered(t, es, t.nodes, j);
      BestClimbs(t, es, i, j);
    }
    var b := t.nodes[i].best;
    if b > 0 {
      assert Attained(t, es, i, b);
      var j :| 0 < j < |t.nodes| && t.keys[i] <= t.keys[j] && OwnBest(t.nodes[j], es) == b;
      var (start, count) := (t.nodes[j].entryStart, t.nodes[j].entryCount);
      RangeBestIsMaximum(es, start, count);
      var e :| start <= e < start + count && !es[e].offensive && es[e].frequency == b;
      EntryInRange(t, es, j, e);
      assert Candidate(t, es, i, e);
    }
  }

  // ---------------------------------------------------------------- lookup

  /** The child of `node` for byte `b`, found along the sibling list. */
  method FindChild(t: Trie, node: nat, b: Byte) returns (child: nat)
    requires t.Valid() && node < |t.nodes|
    ensures child != NONE ==> child < |t.nodes| && t.parent[child] == node && t.nodes[child].byte == b
    ensures child == NONE ==> forall i | 1 <= i < |t.nodes| && t.parent[i] == node :: t.nodes[i].byte != b
  {
    child := t.nodes[node].firstChild;
    assert t.FirstChildOk(node);
    if child == NONE { t.NoFirstChild(node); }
    while child != NONE
      invariant child != NONE ==> node < child < |t.nodes| && t.parent[child] == node
      invariant forall i | 1 <= i < |t.nodes| && t.parent[i] == node && (child == NONE || i < child) ::
                  t.nodes[i].byte != b
      decreases if child == NONE then 0 else |t.nodes| - child
    {
      if t.nodes[child].byte == b { return; }
      assert t.NextSiblingOk(child);
      child := t.nodes[child].nextSibling;
    }
  }

  /** The node of a key, if the trie has one. */
  method Find(t: Trie, key: seq<Byte>) returns (r: Option<nat>)
    requires t.Valid()
    ensures r.Some? ==> r.value < |t.nodes| && t.keys[r.value] == key
    ensures r.None? ==> !HasKey(t, key)
  {
    var node: nat := ROOT;
    for d := 0 to |key|
      invariant node < |t.nodes| && t.keys[node] == key[..d]
    {
      var child := FindChild(t, node, key[d]);
      if child == NONE {
        if HasKey(t, key) {
          var j :| 0 <= j < |t.keys| && t.keys[j] == key;
          var c := t.ChildToward(node, j);
        }
        return None;
      }
      assert t.Linked(child);
      assert key[..d + 1] == key[..d] + [key[d]];
      node := child;
    }
    assert key[..|key|] == key;
    return Some(node);
  }

  /** A range that holds the entries of `key` and no others. */
  ghost predicate ExactRange(es: seq<Entry>, key: seq<Byte>, start: nat, end: nat) {
    forall e | 0 <= e < |es| :: start <= e < end <==> es[e].key == key
  }

  /** The entries written with a key, as an index range.  It is all of them, and nothing
      else, exactly when their number fits the node's 16-bit count. */
  method Entries(t: Trie, es: seq<Entry>, key: seq<Byte>) returns (start: nat, end: nat)
    requires IsLexicon(t, es)
    ensures ExactRange(es, key, start, end) <==> Forms(es, key) < COUNT_WRAP
    ensures start <= end <= |es| && end - start == Forms(es, key) % COUNT_WRAP
  {
    var node := Find(t, key);
    if node.Some? && node.value != ROOT {
      start := t.nodes[node.value].entryStart;
      end := start + t.nodes[node.value].entryCount;
      assert RunOk(t.nodes[node.value], es, key);
      RunExactIff(t.nodes[node.value], es, key);
    } else {
      start, end := 0, 0;
      NoNodeNoForms(t, es, key);
    }
  }

  lemma NoNodeNoForms(t: Trie, es: seq<Entry>, key: seq<Byte>)
    requires IsLexicon(t, es) && (key == [] || !HasKey(t, key))
    ensures Forms(es, key) == 0 && ExactRange(es, key, 0, 0)
  {
    forall e | 0 <= e < |es| ensures es[e].key != key { assert HasKey(t, es[e].key); }
    NoForms(es, key);
  }

  /** A range of what is left of the `m` entries of a key when the first `skip` are left out. */
  lemma ExactIff(es: seq<Entry>, key: seq<Byte>, start: nat, end: nat, f: nat, m: nat, skip: nat)
    requires f + m <= |es| && forall e | 0 <= e < |es| :: es[e].key == key <==> f <= e < f + m
    requires start <= end && skip <= m && if start == end then skip == m else start == f + skip && end == f + m
    ensures ExactRange(es, key, start, end) <==> skip == 0
  {
    if skip > 0 { assert es[f].key == key; }
  }

  lemma RunExactIff(node: Node, es: seq<Entry>, key: seq<Byte>)
    requires SortedByKey(es) && RunOk(node, es, key)
    ensures ExactRange(es, key, node.entryStart, node.entryStart + node.entryCount) <==> Forms(es, key) < COUNT_WRAP
    ensures node.entryStart + node.entryCount <= |es| && node.entryCount == Forms(es, key) % COUNT_WRAP
  {
    FormsAdjacent(es, key);
    var (f, m) := (First(es, key), Forms(es, key));
    RunInside(node, f, m);
    RunBounds(node, f, m);
    ExactIff(es, key, node.entryStart, node.entryStart + node.entryCount, f, m, m / COUNT_WRAP * COUNT_WRAP);
  }
}
