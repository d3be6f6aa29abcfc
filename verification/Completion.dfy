/** Best-first completion: the most frequent offerable words below a prefix, read from the
    subtree maxima without visiting the whole subtree. */
module Completion {
  import opened Trie
  import opened Lexicon

  /** What the heap holds: a subtree still to open, or a word ready to come out. */
  datatype Item = NodeItem(node: nat) | EntryItem(entry: nat)

  predicate Known(t: Trie, es: seq<Entry>, x: Item) {
    match x case NodeItem(i) => i < |t.nodes| case EntryItem(e) => e < |es|
  }

  function Priority(t: Trie, es: seq<Entry>, x: Item): nat
    requires Known(t, es, x)
  {
    match x case NodeItem(i) => t.nodes[i].best case EntryItem(e) => es[e].frequency
  }

  /** Heap order: by frequency; at equal frequency a word before a subtree, then by index. */
  predicate Below(t: Trie, es: seq<Entry>, x: Item, y: Item)
    requires Known(t, es, x) && Known(t, es, y)
  {
    var (p, q) := (Priority(t, es, x), Priority(t, es, y));
    p < q || (p == q && match (x, y)
                        case (NodeItem(i), NodeItem(j)) => i <= j
                        case (EntryItem(i), EntryItem(j)) => i <= j
                        case (NodeItem(_), EntryItem(_)) => true
                        case (EntryItem(_), NodeItem(_)) => false)
  }

  /** An item by its frequency, its kind (a word above a subtree) and its number. */
  ghost function Rank(t: Trie, es: seq<Entry>, x: Item): (nat, nat, nat)
    requires Known(t, es, x)
  {
    match x case NodeItem(i) => (t.nodes[i].best, 0, i) case EntryItem(e) => (es[e].frequency, 1, e)
  }

  /** The heap compares these one after the other. */
  lemma BelowIsByRank(t: Trie, es: seq<Entry>, x: Item, y: Item)
    requires Known(t, es, x) && Known(t, es, y)
    ensures var (a, b) := (Rank(t, es, x), Rank(t, es, y));
            Below(t, es, x, y) <==> a.0 < b.0 || (a.0 == b.0 && (a.1 < b.1 || (a.1 == b.1 && a.2 <= b.2)))
  {
  }

  /** Opening `x` to the end leads to `y`. */
  ghost predicate Leads(t: Trie, es: seq<Entry>, x: Item, y: Item)
    requires |t.keys| == |t.nodes| && Known(t, es, x)
  {
    Known(t, es, y) &&
    match (x, y)
    case (NodeItem(i), NodeItem(j)) => t.keys[i] <= t.keys[j]
    case (NodeItem(i), EntryItem(e)) => t.keys[i] <= es[e].key
    case (EntryItem(e), EntryItem(f)) => e == f
    case (EntryItem(_), NodeItem(_)) => false
  }

  ghost predicate AllKnown(t: Trie, es: seq<Entry>, xs: seq<Item>) {
    forall a | 0 <= a < |xs| :: Known(t, es, xs[a])
  }

  /** Every word among the items may be offered. */
  ghost predicate WordsOnly(t: Trie, es: seq<Entry>, xs: seq<Item>)
    requires AllKnown(t, es, xs)
  {
    forall a | 0 <= a < |xs| && xs[a].EntryItem? :: !es[xs[a].entry].offensive && Visible(es, xs[a].entry)
  }

  /** No two items lead to the same place. */
  ghost predicate Apart(t: Trie, es: seq<Entry>, xs: seq<Item>)
    requires |t.keys| == |t.nodes| && AllKnown(t, es, xs)
  {
    forall a, b, y {:trigger Leads(t, es, xs[a], y), Leads(t, es, xs[b], y)} |
      0 <= a < b < |xs| && Leads(t, es, xs[a], y) :: !Leads(t, es, xs[b], y)
  }

  /** A word that may complete the prefix of node `seed`. */
  ghost predicate Completes(t: Trie, es: seq<Entry>, seed: nat, e: nat)
    requires seed < |t.keys|
  {
    Candidate(t, es, seed, e) && t.keys[seed] != es[e].key
  }

  // ---------------------------------------------------------------- the heap and the children

  /** Takes the largest item out. */
  method PopMax(t: Trie, es: seq<Entry>, heap: seq<Item>) returns (at: nat, x: Item, rest: seq<Item>)
    requires heap != [] && AllKnown(t, es, heap)
    ensures at < |heap| && x == heap[at] && rest == heap[..at] + heap[at + 1..]
    ensures forall a | 0 <= a < |heap| :: Below(t, es, heap[a], x)
  {
    at := 0;
    for a := 1 to |heap|
      invariant at < a && forall b | 0 <= b < a :: Below(t, es, heap[b], heap[at])
    {
      if Below(t, es, heap[at], heap[a]) { at := a; }
    }
    x, rest := heap[at], heap[..at] + heap[at + 1..];
  }

  /** The children of `i` among `cs`, in order: all before `child`, or all if that is none. */
  ghost predicate ListedBefore(t: Trie, i: nat, cs: seq<nat>, child: nat)
    requires t.Valid()
  {
    && (forall a | 0 <= a < |cs| :: i < cs[a] < |t.nodes| && t.parent[cs[a]] == i)
    && (forall a, b | 0 <= a < b < |cs| :: Elder(t, cs[a], cs[b]))
    && (child != NONE ==> i < child < |t.nodes| && t.parent[child] == i)
    && (child != NONE ==> forall a | 0 <= a < |cs| :: Elder(t, cs[a], child))
    && (forall c | 1 <= c < |t.nodes| && t.parent[c] == i && (child == NONE || c < child) :: c in cs)
  }

  predicate Elder(t: Trie, c: nat, d: nat) {
    c < |t.nodes| && d < |t.nodes| && c < d && t.nodes[c].byte < t.nodes[d].byte
  }

  lemma NextListed(t: Trie, i: nat, cs: seq<nat>, child: nat)
    requires t.Valid() && child != NONE && ListedBefore(t, i, cs, child)
    ensures ListedBefore(t, i, cs + [child], t.nodes[child].nextSibling)
  {
    assert t.NextSiblingOk(child);
    var ds := cs + [child];
    var next := t.nodes[child].nextSibling;
    forall c | 1 <= c < |t.nodes| && t.parent[c] == i && (next == NONE || c < next) ensures c in ds {
      if c < child { assert c in cs; } else { assert c == child == ds[|cs|]; }
    }
  }

  /** The sibling list of a node's children. */
  method Children(t: Trie, i: nat) returns (cs: seq<nat>)
    requires t.Valid() && i < |t.nodes|
    ensures ListedBefore(t, i, cs, NONE)
  {
    cs := [];
    var child := t.nodes[i].firstChild;
    assert t.FirstChildOk(i);
    if child == NONE { t.NoFirstChild(i); }
    while child != NONE
      invariant ListedBefore(t, i, cs, child)
      decreases if child == NONE then 0 else |t.nodes| - child
    {
      NextListed(t, i, cs, child);
      assert t.NextSiblingOk(child);
      cs := cs + [child];
      child := t.nodes[child].nextSibling;
    }
  }

  // ---------------------------------------------------------------- opening a node

  /** The offerable forms of node `i`'s own key. */
  ghost predicate OwnItems(t: Trie, es: seq<Entry>, i: nat, xs: seq<Item>)
    requires i < |t.keys|
  {
    && (forall a | 0 <= a < |xs| ::
          xs[a].EntryItem? && Candidate(t, es, i, xs[a].entry) && es[xs[a].entry].key == t.keys[i])
    && (forall a, b | 0 <= a < b < |xs| :: xs[a] != xs[b])
    && (forall e: nat | Candidate(t, es, i, e) && es[e].key == t.keys[i] :: EntryItem(e) in xs)
  }

  /** The children of node `i`, all of them or those with something to offer. */
  ghost predicate ChildItems(t: Trie, i: nat, xs: seq<Item>)
    requires |t.nodes| == |t.parent|
  {
    && (forall a | 0 <= a < |xs| :: xs[a].NodeItem? && 0 < xs[a].node < |t.nodes| && t.parent[xs[a].node] == i)
    && (forall a, b | 0 <= a < b < |xs| :: xs[a] != xs[b])
    && (forall c | 0 < c < |t.nodes| && t.parent[c] == i && t.nodes[c].best > 0 :: NodeItem(c) in xs)
  }

  /** The inoffensive entries from `start` up to `end`, each once. */
  ghost predicate Collected(es: seq<Entry>, start: nat, end: nat, xs: seq<Item>)
    requires end <= |es|
  {
    && (forall a | 0 <= a < |xs| :: xs[a].EntryItem? && start <= xs[a].entry < end && !es[xs[a].entry].offensive)
    && (forall a, b | 0 <= a < b < |xs| :: xs[a] != xs[b])
    && (forall e | start <= e < end && !es[e].offensive :: EntryItem(e) in xs)
  }

  lemma CollectedIsOwn(t: Trie, es: seq<Entry>, i: nat, xs: seq<Item>)
    requires IsLexicon(t, es) && i < |t.nodes| && t.nodes[i].entryStart + t.nodes[i].entryCount <= |es|
    requires Collected(es, t.nodes[i].entryStart, t.nodes[i].entryStart + t.nodes[i].entryCount, xs)
    ensures OwnItems(t, es, i, xs)
  {
    forall a | 0 <= a < |xs|
      ensures xs[a].EntryItem? && Candidate(t, es, i, xs[a].entry) && es[xs[a].entry].key == t.keys[i]
    {
      EntryInRange(t, es, i, xs[a].entry);
    }
    forall e: nat | Candidate(t, es, i, e) && es[e].key == t.keys[i] ensures EntryItem(e) in xs {
      EntryInRange(t, es, i, e);
    }
  }

  method OpenForms(t: Trie, es: seq<Entry>, i: nat) returns (xs: seq<Item>)
    requires IsLexicon(t, es) && i < |t.nodes|
    ensures OwnItems(t, es, i, xs)
  {
    xs := [];
    var start, count := t.nodes[i].entryStart, t.nodes[i].entryCount;
    RangeInside(t, es, i);
    for e := start to start + count
      invariant Collected(es, start, e, xs)
    {
      if !es[e].offensive { xs := xs + [EntryItem(e)]; }
    }
    CollectedIsOwn(t, es, i, xs);
  }

  method OpenChildren(t: Trie, i: nat, all: bool) returns (xs: seq<Item>)
    requires t.Valid() && i < |t.nodes|
    ensures ChildItems(t, i, xs)
  {
    var cs := Children(t, i);
    xs := [];
    for n := 0 to |cs|
      invariant forall a | 0 <= a < |xs| :: xs[a].NodeItem? && xs[a].node in cs[..n]
      invariant forall a, b | 0 <= a < b < |xs| :: xs[a] != xs[b]
      invariant forall m | 0 <= m < n && t.nodes[cs[m]].best > 0 :: NodeItem(cs[m]) in xs
    {
      if all || t.nodes[cs[n]].best > 0 { xs := xs + [NodeItem(cs[n])]; }
    }
    forall c | 0 < c < |t.nodes| && t.parent[c] == i && t.nodes[c].best > 0 ensures NodeItem(c) in xs {
      assert c in cs;
      var m :| 0 <= m < |cs| && cs[m] == c;
      assert NodeItem(cs[m]) in xs;
    }
  }

  // ---------------------------------------------------------------- what opening a node does

  /** Items below node `i` that the heap may take in exchange for it. */
  ghost predicate Under(t: Trie, es: seq<Entry>, i: nat, xs: seq<Item>)
    requires |t.keys| == |t.nodes| && i < |t.nodes|
  {
    && AllKnown(t, es, xs) && Apart(t, es, xs)
    && (forall a | 0 <= a < |xs| :: Priority(t, es, xs[a]) <= t.nodes[i].best)
    && WordsOnly(t, es, xs)
    && (forall a, y | 0 <= a < |xs| && Leads(t, es, xs[a], y) :: Leads(t, es, NodeItem(i), y) && y != NodeItem(i))
  }

  /** Some item leads to entry `e`. */
  ghost predicate Reaches(t: Trie, es: seq<Entry>, xs: seq<Item>, e: nat)
    requires |t.keys| == |t.nodes| && AllKnown(t, es, xs)
  {
    exists a :: 0 <= a < |xs| && Leads(t, es, xs[a], EntryItem(e))
  }

  lemma ChildKey(t: Trie, i: nat, c: nat)
    requires t.Valid() && 0 < c < |t.nodes| && t.parent[c] == i
    ensures t.keys[i] <= t.keys[c] && |t.keys[c]| == |t.keys[i]| + 1
  {
    assert t.Linked(c);
  }

  /** Different children lead to different places. */
  lemma ChildrenApart(t: Trie, es: seq<Entry>, i: nat, c: nat, d: nat, y: Item)
    requires t.Valid() && 0 < c < |t.nodes| && 0 < d < |t.nodes| && t.parent[c] == t.parent[d] == i && c != d
    requires Leads(t, es, NodeItem(c), y)
    ensures !Leads(t, es, NodeItem(d), y)
  {
    ChildKey(t, i, c);
    ChildKey(t, i, d);
    t.KeysIdentify(c, d);
    var k := match y case NodeItem(j) => t.keys[j] case EntryItem(e) => es[e].key;
    assert t.keys[c] == k[..|t.keys[c]|];
  }

  lemma OpenedApart(t: Trie, es: seq<Entry>, i: nat, xs: seq<Item>, ys: seq<Item>)
    requires IsLexicon(t, es) && i < |t.nodes| && OwnItems(t, es, i, xs) && ChildItems(t, i, ys)
    ensures AllKnown(t, es, xs + ys) && Apart(t, es, xs + ys)
  {
    var zs := xs + ys;
    forall a, b, y | 0 <= a < b < |zs| && Leads(t, es, zs[a], y) ensures !Leads(t, es, zs[b], y) {
      if b < |xs| {
        assert zs[a] == xs[a] && zs[b] == xs[b] && xs[a] != xs[b];
      } else {
        var d := ys[b - |xs|].node;
        if a < |xs| {
          ChildKey(t, i, d);
        } else {
          assert ys[a - |xs|] != ys[b - |xs|];
          ChildrenApart(t, es, i, ys[a - |xs|].node, d, y);
        }
      }
    }
  }

  lemma OpenedBelow(t: Trie, es: seq<Entry>, i: nat, xs: seq<Item>, ys: seq<Item>)
    requires IsLexicon(t, es) && i < |t.nodes| && OwnItems(t, es, i, xs) && ChildItems(t, i, ys)
    ensures Under(t, es, i, xs + ys)
  {
    OpenedApart(t, es, i, xs, ys);
    var zs := xs + ys;
    BestIsSubtreeMaximum(t, es, i);
    forall a | 0 <= a < |zs| ensures Priority(t, es, zs[a]) <= t.nodes[i].best {
      if a >= |xs| { assert Covered(t, es, t.nodes, zs[a].node); }
    }
    forall a, y | 0 <= a < |zs| && Leads(t, es, zs[a], y)
      ensures Leads(t, es, NodeItem(i), y) && y != NodeItem(i)
    {
      if a >= |xs| { ChildKey(t, i, zs[a].node); }
    }
  }

  /** Whatever can still be offered below an opened node is behind one of its items. */
  lemma OpenedReaches(t: Trie, es: seq<Entry>, i: nat, xs: seq<Item>, ys: seq<Item>, e: nat)
    requires IsLexicon(t, es) && i < |t.nodes| && ChildItems(t, i, ys)
    requires AllKnown(t, es, xs + ys) && Candidate(t, es, i, e) && es[e].frequency > 0
    requires es[e].key == t.keys[i] ==> OwnItems(t, es, i, xs)
    ensures Reaches(t, es, xs + ys, e)
  {
    var zs := xs + ys;
    if es[e].key == t.keys[i] {
      assert EntryItem(e) in xs;
      var a :| 0 <= a < |xs| && xs[a] == EntryItem(e);
      assert zs[a] == xs[a];
    } else {
      assert HasKey(t, es[e].key);
      var j :| 0 <= j < |t.keys| && t.keys[j] == es[e].key;
      var c := t.ChildToward(i, j);
      ChildKey(t, i, c);
      assert t.Linked(c);
      BestIsSubtreeMaximum(t, es, c);
      assert NodeItem(c) in ys;
      var a :| 0 <= a < |ys| && ys[a] == NodeItem(c);
      assert zs[|xs| + a] == ys[a];
    }
  }

  // ---------------------------------------------------------------- the loop

  /** Strictly below the seed. */
  ghost predicate Inside(t: Trie, es: seq<Entry>, seed: nat, y: Item)
    requires |t.keys| == |t.nodes| && seed < |t.nodes|
  {
    && Leads(t, es, NodeItem(seed), y)
    && match y case NodeItem(j) => j != seed case EntryItem(e) => es[e].key != t.keys[seed]
  }

  /** The heap between two pops: its items lead to disjoint places below the seed, all
      of them among the places `live` not yet left behind. */
  ghost predicate Frontier(t: Trie, es: seq<Entry>, seed: nat, heap: seq<Item>, live: set<Item>)
    requires |t.keys| == |t.nodes| && seed < |t.nodes|
  {
    && AllKnown(t, es, heap) && Apart(t, es, heap)
    && WordsOnly(t, es, heap)
    && (forall a, y | 0 <= a < |heap| && Leads(t, es, heap[a], y) :: y in live && Inside(t, es, seed, y))
  }

  /** The words reported so far: they complete the seed, differ, and come by frequency. */
  ghost predicate Ranked(t: Trie, es: seq<Entry>, seed: nat, live: set<Item>, out: seq<nat>)
    requires seed < |t.keys|
  {
    && (forall n | 0 <= n < |out| :: Completes(t, es, seed, out[n]) && EntryItem(out[n]) !in live)
    && (forall m, n | 0 <= m < n < |out| :: out[m] != out[n] && es[out[m]].frequency >= es[out[n]].frequency)
  }

  /** Nothing in the heap comes before them. */
  ghost predicate Lower(t: Trie, es: seq<Entry>, heap: seq<Item>, out: seq<nat>)
    requires AllKnown(t, es, heap)
  {
    forall n, a | 0 <= n < |out| && 0 <= a < |heap| :: out[n] < |es| && Priority(t, es, heap[a]) <= es[out[n]].frequency
  }

  /** What is not out yet can still be reached. */
  ghost predicate NoneLost(t: Trie, es: seq<Entry>, seed: nat, heap: seq<Item>, out: seq<nat>)
    requires |t.keys| == |t.nodes| && seed < |t.nodes| && AllKnown(t, es, heap)
  {
    forall e: nat | Completes(t, es, seed, e) && es[e].frequency > 0 && e !in out :: Reaches(t, es, heap, e)
  }

  ghost predicate Reported(t: Trie, es: seq<Entry>, seed: nat, heap: seq<Item>, live: set<Item>, out: seq<nat>)
    requires |t.keys| == |t.nodes| && seed < |t.nodes| && AllKnown(t, es, heap)
  {
    Ranked(t, es, seed, live, out) && Lower(t, es, heap, out) && NoneLost(t, es, seed, heap, out)
  }

  /** `rest` is the heap without the item at `at`. */
  lemma RestKept(t: Trie, es: seq<Entry>, seed: nat, heap: seq<Item>, live: set<Item>, at: nat, rest: seq<Item>)
    requires |t.keys| == |t.nodes| && seed < |t.nodes| && Frontier(t, es, seed, heap, live)
    requires at < |heap| && rest == heap[..at] + heap[at + 1..]
    ensures Frontier(t, es, seed, rest, live - {heap[at]})
    ensures forall b, y | 0 <= b < |rest| && Leads(t, es, heap[at], y) :: !Leads(t, es, rest[b], y)
    ensures forall b | 0 <= b < |rest| :: rest[b] in heap
  {
    forall b, y | 0 <= b < |rest| && Leads(t, es, heap[at], y) ensures !Leads(t, es, rest[b], y) {
      var c := if b < at then b else b + 1;
      assert rest[b] == heap[c];
    }
    assert Leads(t, es, heap[at], heap[at]);
    forall a, b, y | 0 <= a < b < |rest| && Leads(t, es, rest[a], y) ensures !Leads(t, es, rest[b], y) {
      var c, d := if a < at then a else a + 1, if b < at then b else b + 1;
      assert rest[a] == heap[c] && rest[b] == heap[d];
    }
    forall a, y | 0 <= a < |rest| && Leads(t, es, rest[a], y) ensures y in live - {heap[at]} && Inside(t, es, seed, y) {
      var c := if a < at then a else a + 1;
      assert rest[a] == heap[c];
    }
  }

  /** Replacing the popped node by the items below it. */
  lemma NodeOpened(t: Trie, es: seq<Entry>, seed: nat, heap: seq<Item>, live: set<Item>, at: nat,
                   rest: seq<Item>, zs: seq<Item>)
    requires |t.keys| == |t.nodes| && seed < |t.nodes| && Frontier(t, es, seed, heap, live)
    requires at < |heap| && heap[at].NodeItem? && rest == heap[..at] + heap[at + 1..]
    requires Under(t, es, heap[at].node, zs)
    ensures Frontier(t, es, seed, rest + zs, live - {heap[at]})
  {
    RestKept(t, es, seed, heap, live, at, rest);
    var ws := rest + zs;
    forall a, b, y | 0 <= a < b < |ws| && Leads(t, es, ws[a], y) ensures !Leads(t, es, ws[b], y) {
      if b >= |rest| && a < |rest| {
        assert !Leads(t, es, heap[at], y) && ws[b] == zs[b - |rest|];
      }
    }
    forall a, y | 0 <= a < |ws| && Leads(t, es, ws[a], y) ensures y in live - {heap[at]} && Inside(t, es, seed, y) {
      if a >= |rest| { assert Leads(t, es, heap[at], y); }
    }
  }

  lemma SeedApart(t: Trie, es: seq<Entry>, seed: nat, heap: seq<Item>)
    requires IsLexicon(t, es) && seed < |t.nodes| && ChildItems(t, seed, heap)
    ensures AllKnown(t, es, heap) && Apart(t, es, heap)
  {
    forall a, b, y | 0 <= a < b < |heap| && Leads(t, es, heap[a], y) ensures !Leads(t, es, heap[b], y) {
      assert heap[a] != heap[b];
      ChildrenApart(t, es, seed, heap[a].node, heap[b].node, y);
    }
  }

  lemma SeedReaches(t: Trie, es: seq<Entry>, seed: nat, heap: seq<Item>, e: nat)
    requires IsLexicon(t, es) && seed < |t.nodes| && ChildItems(t, seed, heap) && AllKnown(t, es, heap)
    requires Completes(t, es, seed, e) && es[e].frequency > 0
    ensures Reaches(t, es, heap, e)
  {
    assert [] + heap == heap;
    OpenedReaches(t, es, seed, [], heap, e);
  }

  lemma SeedOpened(t: Trie, es: seq<Entry>, seed: nat, heap: seq<Item>, live: set<Item>)
    requires IsLexicon(t, es) && seed < |t.nodes| && ChildItems(t, seed, heap)
    requires forall y | Known(t, es, y) :: y in live
    ensures Frontier(t, es, seed, heap, live) && Reported(t, es, seed, heap, live, [])
  {
    SeedApart(t, es, seed, heap);
    forall a, y | 0 <= a < |heap| && Leads(t, es, heap[a], y) ensures y in live && Inside(t, es, seed, y) {
      ChildKey(t, seed, heap[a].node);
    }
    forall e: nat | Completes(t, es, seed, e) && es[e].frequency > 0 ensures Reaches(t, es, heap, e) {
      SeedReaches(t, es, seed, heap, e);
    }
  }

  lemma LeadsPriority(t: Trie, es: seq<Entry>, x: Item, e: nat)
    requires IsLexicon(t, es) && Known(t, es, x) && Leads(t, es, x, EntryItem(e))
    requires !es[e].offensive && Visible(es, e)
    ensures es[e].frequency <= Priority(t, es, x)
  {
    if x.NodeItem? { BestIsSubtreeMaximum(t, es, x.node); }
  }

  lemma StoppedEarly(t: Trie, es: seq<Entry>, seed: nat, heap: seq<Item>, live: set<Item>, out: seq<nat>, e: nat)
    requires IsLexicon(t, es) && seed < |t.nodes| && AllKnown(t, es, heap) && Reported(t, es, seed, heap, live, out)
    requires Completes(t, es, seed, e) && es[e].frequency > 0 && e !in out
    ensures heap != [] && forall n | 0 <= n < |out| :: es[out[n]].frequency >= es[e].frequency
  {
    assert Reaches(t, es, heap, e);
    var a :| 0 <= a < |heap| && Leads(t, es, heap[a], EntryItem(e));
    LeadsPriority(t, es, heap[a], e);
  }

  /** `out` is the `words` most frequent completions of `seed`, or all of them with a positive
      frequency if there are fewer: distinct, by frequency, and none left out that beats one
      of them. */
  ghost predicate TopWords(t: Trie, es: seq<Entry>, seed: nat, words: nat, out: seq<nat>)
    requires seed < |t.keys|
  {
    && |out| <= words
    && (forall n | 0 <= n < |out| :: Completes(t, es, seed, out[n]))
    && (forall m, n | 0 <= m < n < |out| :: out[m] != out[n] && es[out[m]].frequency >= es[out[n]].frequency)
    && (forall e: nat | Completes(t, es, seed, e) && es[e].frequency > 0 && e !in out ::
          |out| == words && forall n | 0 <= n < |out| :: es[out[n]].frequency >= es[e].frequency)
  }

  /** When the heap is empty or enough words are out, nothing better was left behind. */
  lemma NoneMissed(t: Trie, es: seq<Entry>, seed: nat, heap: seq<Item>, live: set<Item>, out: seq<nat>, words: nat)
    requires IsLexicon(t, es) && seed < |t.nodes| && AllKnown(t, es, heap) && Reported(t, es, seed, heap, live, out)
    requires |out| <= words && (heap == [] || |out| == words)
    ensures TopWords(t, es, seed, words, out)
  {
    forall e: nat | Completes(t, es, seed, e) && es[e].frequency > 0 && e !in out
      ensures |out| == words && forall n | 0 <= n < |out| :: es[out[n]].frequency >= es[e].frequency
    {
      StoppedEarly(t, es, seed, heap, live, out, e);
    }
  }

  lemma ReachesWithout(t: Trie, es: seq<Entry>, heap: seq<Item>, at: nat, rest: seq<Item>, more: seq<Item>, e: nat)
    requires |t.keys| == |t.nodes| && AllKnown(t, es, heap) && AllKnown(t, es, rest + more)
    requires at < |heap| && rest == heap[..at] + heap[at + 1..] && Reaches(t, es, heap, e)
    requires Leads(t, es, heap[at], EntryItem(e)) ==> AllKnown(t, es, more) && Reaches(t, es, more, e)
    ensures Reaches(t, es, rest + more, e)
  {
    var ws := rest + more;
    var a :| 0 <= a < |heap| && Leads(t, es, heap[a], EntryItem(e));
    if a == at {
      var b :| 0 <= b < |more| && Leads(t, es, more[b], EntryItem(e));
      assert ws[|rest| + b] == more[b];
    } else {
      var b := if a < at then a else a - 1;
      assert ws[b] == heap[a];
    }
  }

  /** One more word is out: it was offerable, is new, and no more frequent than those before. */
  lemma OneMoreOut(t: Trie, es: seq<Entry>, seed: nat, heap: seq<Item>, live: set<Item>, at: nat, out: seq<nat>)
    requires IsLexicon(t, es) && seed < |t.nodes| && Frontier(t, es, seed, heap, live)
    requires Ranked(t, es, seed, live, out) && Lower(t, es, heap, out) && at < |heap| && heap[at].EntryItem?
    ensures Ranked(t, es, seed, live - {heap[at]}, out + [heap[at].entry])
  {
    var x := heap[at];
    assert Leads(t, es, x, x) && x in live && Inside(t, es, seed, x);
    assert Completes(t, es, seed, x.entry);
    forall n | 0 <= n < |out| ensures out[n] != x.entry && es[out[n]].frequency >= es[x.entry].frequency {
      assert Priority(t, es, heap[at]) <= es[out[n]].frequency;
    }
  }

  lemma RestIsLower(t: Trie, es: seq<Entry>, heap: seq<Item>, at: nat, rest: seq<Item>, out: seq<nat>)
    requires AllKnown(t, es, heap) && AllKnown(t, es, rest) && Lower(t, es, heap, out)
    requires at < |heap| && heap[at].EntryItem? && forall b | 0 <= b < |rest| :: rest[b] in heap
    requires forall a | 0 <= a < |heap| :: Below(t, es, heap[a], heap[at])
    ensures Lower(t, es, rest, out + [heap[at].entry])
  {
    var out' := out + [heap[at].entry];
    forall n, a | 0 <= n < |out'| && 0 <= a < |rest|
      ensures out'[n] < |es| && Priority(t, es, rest[a]) <= es[out'[n]].frequency
    {
      var c :| 0 <= c < |heap| && heap[c] == rest[a];
      assert Below(t, es, heap[c], heap[at]);
      if n < |out| { assert out'[n] == out[n] && Priority(t, es, heap[c]) <= es[out[n]].frequency; }
    }
  }

  lemma EntryReported(t: Trie, es: seq<Entry>, seed: nat, heap: seq<Item>, live: set<Item>, at: nat,
                      rest: seq<Item>, out: seq<nat>)
    requires IsLexicon(t, es) && seed < |t.nodes| && Frontier(t, es, seed, heap, live)
    requires Reported(t, es, seed, heap, live, out)
    requires at < |heap| && heap[at].EntryItem? && rest == heap[..at] + heap[at + 1..]
    requires forall a | 0 <= a < |heap| :: Below(t, es, heap[a], heap[at])
    ensures Frontier(t, es, seed, rest, live - {heap[at]})
    ensures Reported(t, es, seed, rest, live - {heap[at]}, out + [heap[at].entry])
  {
    RestKept(t, es, seed, heap, live, at, rest);
    OneMoreOut(t, es, seed, heap, live, at, out);
    RestIsLower(t, es, heap, at, rest, out);
    RestReaches(t, es, seed, heap, at, rest, out);
  }

  lemma RestReaches(t: Trie, es: seq<Entry>, seed: nat, heap: seq<Item>, at: nat, rest: seq<Item>, out: seq<nat>)
    requires IsLexicon(t, es) && seed < |t.nodes| && AllKnown(t, es, heap) && AllKnown(t, es, rest)
    requires NoneLost(t, es, seed, heap, out)
    requires at < |heap| && heap[at].EntryItem? && rest == heap[..at] + heap[at + 1..]
    ensures NoneLost(t, es, seed, rest, out + [heap[at].entry])
  {
    var out' := out + [heap[at].entry];
    assert heap[at].entry == out'[|out|] && rest + [] == rest;
    forall e: nat | Completes(t, es, seed, e) && es[e].frequency > 0 && e !in out' ensures Reaches(t, es, rest, e) {
      ReachesWithout(t, es, heap, at, rest, [], e);
    }
  }

  lemma NodeReported(t: Trie, es: seq<Entry>, seed: nat, heap: seq<Item>, live: set<Item>, at: nat,
                     rest: seq<Item>, xs: seq<Item>, ys: seq<Item>, out: seq<nat>)
    requires IsLexicon(t, es) && seed < |t.nodes| && Frontier(t, es, seed, heap, live)
    requires Reported(t, es, seed, heap, live, out)
    requires at < |heap| && heap[at].NodeItem? && rest == heap[..at] + heap[at + 1..]
    requires OwnItems(t, es, heap[at].node, xs) && ChildItems(t, heap[at].node, ys)
    ensures Frontier(t, es, seed, rest + (xs + ys), live - {heap[at]})
    ensures Reported(t, es, seed, rest + (xs + ys), live - {heap[at]}, out)
  {
    var zs := xs + ys;
    OpenedBelow(t, es, heap[at].node, xs, ys);
    NodeOpened(t, es, seed, heap, live, at, rest, zs);
    PrioritiesKept(t, es, heap, at, rest, zs, out);
    forall e: nat | Completes(t, es, seed, e) && es[e].frequency > 0 && e !in out
      ensures Reaches(t, es, rest + zs, e)
    {
      assert Reaches(t, es, heap, e);
      if Leads(t, es, heap[at], EntryItem(e)) { OpenedReaches(t, es, heap[at].node, xs, ys, e); }
      ReachesWithout(t, es, heap, at, rest, zs, e);
    }
  }

  lemma PrioritiesKept(t: Trie, es: seq<Entry>, heap: seq<Item>, at: nat, rest: seq<Item>, zs: seq<Item>, out: seq<nat>)
    requires |t.keys| == |t.nodes| && AllKnown(t, es, heap) && AllKnown(t, es, rest + zs) && Lower(t, es, heap, out)
    requires at < |heap| && heap[at].NodeItem? && rest == heap[..at] + heap[at + 1..]
    requires Under(t, es, heap[at].node, zs)
    ensures Lower(t, es, rest + zs, out)
  {
    var ws := rest + zs;
    forall n, a | 0 <= n < |out| && 0 <= a < |ws|
      ensures out[n] < |es| && Priority(t, es, ws[a]) <= es[out[n]].frequency
    {
      if a < |rest| {
        assert ws[a] == heap[if a < at then a else a + 1];
      } else {
        assert ws[a] == zs[a - |rest|];
        assert Priority(t, es, zs[a - |rest|]) <= Priority(t, es, heap[at]) <= es[out[n]].frequency;
      }
    }
  }

  ghost function Everything(t: Trie, es: seq<Entry>): (live: set<Item>)
    ensures forall y | Known(t, es, y) :: y in live
  {
    (set i | 0 <= i < |t.nodes| :: NodeItem(i)) + (set e | 0 <= e < |es| :: EntryItem(e))
  }

  lemma PoppedIsLive(t: Trie, es: seq<Entry>, seed: nat, heap: seq<Item>, live: set<Item>, at: nat)
    requires |t.keys| == |t.nodes| && seed < |t.nodes| && Frontier(t, es, seed, heap, live) && at < |heap|
    ensures heap[at] in live && |live - {heap[at]}| < |live|
  {
    assert Leads(t, es, heap[at], heap[at]);
  }

  /** The up to `words` most frequent offerable words strictly below `seed`. */
  method Complete(t: Trie, es: seq<Entry>, seed: nat, words: nat) returns (out: seq<nat>)
    requires IsLexicon(t, es) && seed < |t.nodes|
    ensures TopWords(t, es, seed, words, out)
  {
    var heap := OpenChildren(t, seed, true);
    out := [];
    ghost var live := Everything(t, es);
    SeedOpened(t, es, seed, heap, live);
    while heap != []
      invariant Frontier(t, es, seed, heap, live) && Reported(t, es, seed, heap, live, out) && |out| <= words
      decreases |live|
    {
      var at, x, rest := PopMax(t, es, heap);
      if |out| >= words {
        NoneMissed(t, es, seed, heap, live, out, words);
        return;
      }
      PoppedIsLive(t, es, seed, heap, live, at);
      match x {
        case EntryItem(e) =>
          EntryReported(t, es, seed, heap, live, at, rest, out);
          out, heap := out + [e], rest;
        case NodeItem(i) =>
          var xs := OpenForms(t, es, i);
          var ys := OpenChildren(t, i, false);
          NodeReported(t, es, seed, heap, live, at, rest, xs, ys, out);
          heap := rest + (xs + ys);
      }
      live := live - {x};
    }
    NoneMissed(t, es, seed, heap, live, out, words);
  }
}
