/** From word lists to the words within reach of what was typed. */
module Prediction {
  import opened Basics
  import opened Distance
  import opened Trie
  import opened Lexicon
  import opened Merge
  import opened Search
  import opened Sorting

  datatype Tuning = Tuning(costs: Costs, insert: real, insertRepeat: real,
                           maxShort: real, maxMid: real, maxLong: real,
                           seedShort: real, seedMid: real, seedLong: real)
  {
    predicate NonNegative() {
      costs.NonNegative() && insert >= 0.0 && insertRepeat >= 0.0
    }

    function MaxCost(n: nat): real {
      if n <= 3 then maxShort else if n <= 5 then maxMid else maxLong
    }

    function SeedCost(n: nat): real {
      if n <= 2 then seedShort else if n <= 4 then seedMid else seedLong
    }
  }

  /** How much deeper than the typed word the search looks. */
  const EXTRA_DEPTH := 6

  /** Reads the lines of all lists into a lexicon. */
  method Load(raws: seq<Entry>) returns (es: seq<Entry>, nodes: seq<Node>, parent: seq<int>, ghost keys: seq<seq<Byte>>)
    requires forall r | r in raws :: r.key != []
    ensures MergedList(raws, es) && Sorted(ByKey, es)
    ensures IsLexicon(Trie(nodes, parent, keys), es)
    ensures FormsInOrder(es)
  {
    es := MergeAll(raws);
    MergedFitsBuilder(raws, es);
    nodes, parent, keys := Build(es);
  }

  /** What each typed byte costs to drop: less when it repeats the one before. */
  method InsertCosts(tuning: Tuning, typed: seq<Byte>) returns (ins: seq<real>)
    ensures |ins| == |typed|
    ensures forall i {:trigger ins[i]} | 0 <= i < |typed| ::
              ins[i] == if i > 0 && typed[i] == typed[i - 1] then tuning.insertRepeat else tuning.insert
  {
    ins := [];
    for i := 0 to |typed|
      invariant |ins| == i
      invariant forall j {:trigger ins[j]} | 0 <= j < i ::
                  ins[j] == if j > 0 && typed[j] == typed[j - 1] then tuning.insertRepeat else tuning.insert
    {
      ins := ins + [if i > 0 && typed[i] == typed[i - 1] then tuning.insertRepeat else tuning.insert];
    }
  }

  /** Entry `e` was found, at this cost, under one of the nodes in `full`. */
  ghost predicate Found(t: Trie, full: seq<(nat, real)>, e: nat, cost: real) {
    exists j :: 0 <= j < |t.nodes| && (j, cost) in full
                && t.nodes[j].entryStart <= e < t.nodes[j].entryStart + t.nodes[j].entryCount
  }

  lemma {:induction false} FullHolds(task: Task, hi: nat, j: nat, c: real)
    requires task.Valid() && 1 <= hi <= |task.trie.nodes| && j < |task.trie.nodes|
    ensures (j, c) in task.Full(1, hi) <==> 1 <= j < hi && task.Finds(j) && c == task.Cost(j)
    decreases hi
  {
    if hi > 1 { FullHolds(task, hi - 1, j, c); }
  }

  /** Entry `e` is found exactly if it is within reach and the walk gets to it. */
  lemma FoundExactly(task: Task, es: seq<Entry>, full: seq<(nat, real)>, e: nat, cost: real)
    requires task.Valid() && IsLexicon(task.trie, es) && e < |es|
    requires full == task.Full(1, |task.trie.nodes|)
    ensures var d := Dist(task.q, es[e].key, |task.q.typed|);
            Found(task.trie, full, e, cost) <==>
            && Visible(es, e) && cost == d && |es[e].key| <= task.maxDepth && d <= task.maxCost
            && Reached(task.q, es[e].key, task.maxCost)
  {
    var t := task.trie;
    assert HasKey(t, es[e].key);
    var i :| 0 <= i < |t.keys| && t.keys[i] == es[e].key;
    EntryInRange(t, es, i, e);
    FullHolds(task, |t.nodes|, i, cost);
    if Found(t, full, e, cost) {
      var j :| 0 <= j < |t.nodes| && (j, cost) in full
               && t.nodes[j].entryStart <= e < t.nodes[j].entryStart + t.nodes[j].entryCount;
      EntryInRange(t, es, j, e);
      FullHolds(task, |t.nodes|, j, cost);
    }
  }

  /** When swaps dominate, the walk gets to every word within reach. */
  lemma WithinReachIsReached(q: Query, key: seq<Byte>, reach: real)
    requires q.Valid() && q.costs.SwapDominates() && Dist(q, key, |q.typed|) <= reach
    ensures Reached(q, key, reach)
  {
    SwapDominatesSuffices(q, key, reach);
  }

  /** The search for one typed word under a tuning. */
  function TaskFor(t: Trie, tuning: Tuning, q: Query): Task {
    var n := |q.typed|;
    Task(t, q, tuning.MaxCost(n), tuning.SeedCost(n), n + EXTRA_DEPTH)
  }

  /** Entry `e` is to be found within `reach` and `depth`: its count shows it, and the walk gets
      there, as it always does when swaps dominate. */
  ghost predicate DueWithin(es: seq<Entry>, q: Query, e: nat, reach: real, depth: nat)
    requires q.Valid() && e < |es|
  {
    && Visible(es, e) && |es[e].key| <= depth && Dist(q, es[e].key, |q.typed|) <= reach
    && (q.costs.SwapDominates() || Reached(q, es[e].key, reach))
  }

  /** So under a tuning: at most six letters longer than what was typed, and within its radius. */
  ghost predicate Due(es: seq<Entry>, tuning: Tuning, q: Query, e: nat)
    requires q.Valid() && e < |es|
  {
    DueWithin(es, q, e, tuning.MaxCost(|q.typed|), |q.typed| + EXTRA_DEPTH)
  }

  lemma FoundIfDue(t: Trie, es: seq<Entry>, tuning: Tuning, q: Query, full: seq<(nat, real)>, e: nat, cost: real)
    requires t.Valid() && q.Valid() && IsLexicon(t, es) && e < |es| && q.costs == tuning.costs
    requires full == TaskFor(t, tuning, q).Full(1, |t.nodes|)
    ensures Found(t, full, e, cost) <==> Due(es, tuning, q, e) && cost == Dist(q, es[e].key, |q.typed|)
  {
    var (n, reach) := (|q.typed|, tuning.MaxCost(|q.typed|));
    FoundExactly(TaskFor(t, tuning, q), es, full, e, cost);
    if tuning.costs.SwapDominates() && Dist(q, es[e].key, n) <= reach {
      WithinReachIsReached(q, es[e].key, reach);
    }
  }

  /** A row of substitution costs for every typed byte, nothing for the byte itself. */
  ghost predicate Fits(typed: seq<Byte>, sub: seq<seq<real>>) {
    && |sub| == |typed|
    && (forall i | 0 <= i < |sub| :: |sub[i]| == SYMBOLS && sub[i][Symbol(typed[i])] == 0.0)
    && (forall i, c | 0 <= i < |sub| && 0 <= c < |sub[i]| :: sub[i][c] >= 0.0)
  }

  /** `q` asks for what was typed at the tuning's costs. */
  ghost predicate Asks(q: Query, tuning: Tuning, typed: seq<Byte>, sub: seq<seq<real>>) {
    && q.Valid() && q.costs == tuning.costs && q.typed == typed && q.sub == sub && |q.ins| == |typed|
    && forall i {:trigger q.ins[i]} | 0 <= i < |typed| ::
         q.ins[i] == if i > 0 && typed[i] == typed[i - 1] then tuning.insertRepeat else tuning.insert
  }

  /** The entries found are those within `reach`, at most six letters longer than what was typed,
      each with its exact distance. */
  ghost predicate Finds(t: Trie, es: seq<Entry>, q: Query, full: seq<(nat, real)>, reach: real)
    requires q.Valid()
  {
    forall e, cost {:trigger Found(t, full, e, cost)} | 0 <= e < |es| ::
      Found(t, full, e, cost) <==> DueWithin(es, q, e, reach, |q.typed| + 6) && cost == Dist(q, es[e].key, |q.typed|)
  }

  /** The seeds are the nodes that the walk gets to within `reach`, at most six letters deeper than
      what was typed and within `near`, each with its exact distance and its depth. */
  ghost predicate Seeds(t: Trie, q: Query, seeds: seq<(nat, real, nat)>, reach: real, near: real)
    requires t.Valid() && q.Valid()
  {
    forall j, cost, depth {:trigger (j, cost, depth)} ::
      (j, cost, depth) in seeds <==>
      && 1 <= j < |t.nodes| && depth == |t.keys[j]| <= |q.typed| + 6
      && cost == Dist(q, t.keys[j], |q.typed|) <= near && Reached(q, t.keys[j], reach)
  }

  lemma {:induction false} SeedsHold(task: Task, hi: nat, seed: (nat, real, nat))
    requires task.Valid() && 1 <= hi <= |task.trie.nodes|
    ensures seed in task.SeedsIn(1, hi) <==>
            && 1 <= seed.0 < hi && task.Seeds(seed.0) && seed.1 == task.Cost(seed.0)
            && seed.2 == |task.trie.keys[seed.0]|
    decreases hi
  {
    if hi > 1 { SeedsHold(task, hi - 1, seed); }
  }

  lemma SeedsAre(t: Trie, q: Query, seeds: seq<(nat, real, nat)>, reach: real, near: real)
    requires t.Valid() && q.Valid() && seeds == Task(t, q, reach, near, |q.typed| + 6).SeedsIn(1, |t.nodes|)
    ensures Seeds(t, q, seeds, reach, near)
  {
    var task := Task(t, q, reach, near, |q.typed| + 6);
    forall j, cost, depth {:trigger (j, cost, depth)}
      ensures (j, cost, depth) in seeds <==>
              && 1 <= j < |t.nodes| && depth == |t.keys[j]| <= |q.typed| + 6
              && cost == Dist(q, t.keys[j], |q.typed|) <= near && Reached(q, t.keys[j], reach)
    {
      if 0 <= j && 0 <= depth { SeedsHold(task, |t.nodes|, (j, cost, depth)); }
    }
  }

  /** The words within reach of what was typed, whatever the touch made of `sub`, each with its
      exact distance under the tuning's costs, and the prefixes to complete: all nodes within
      the completion radius that the walk gets to, which is every such node when swaps
      dominate and that radius is not the larger one. */
  method Suggest(t: Trie, es: seq<Entry>, tuning: Tuning, typed: seq<Byte>, sub: seq<seq<real>>)
    returns (full: seq<(nat, real)>, seeds: seq<(nat, real, nat)>, q: Query)
    requires IsLexicon(t, es) && tuning.NonNegative() && Fits(typed, sub)
    ensures Asks(q, tuning, typed, sub)
    ensures forall e, cost {:trigger Found(t, full, e, cost)} | 0 <= e < |es| ::
              Found(t, full, e, cost) <==> Due(es, tuning, q, e) && cost == Dist(q, es[e].key, |typed|)
    ensures |typed| <= 3 ==> Finds(t, es, q, full, tuning.maxShort)
    ensures 4 <= |typed| <= 5 ==> Finds(t, es, q, full, tuning.maxMid)
    ensures |typed| >= 6 ==> Finds(t, es, q, full, tuning.maxLong)
    ensures |typed| <= 2 ==> Seeds(t, q, seeds, tuning.maxShort, tuning.seedShort)
    ensures |typed| == 3 ==> Seeds(t, q, seeds, tuning.maxShort, tuning.seedMid)
    ensures |typed| == 4 ==> Seeds(t, q, seeds, tuning.maxMid, tuning.seedMid)
    ensures |typed| == 5 ==> Seeds(t, q, seeds, tuning.maxMid, tuning.seedLong)
    ensures |typed| >= 6 ==> Seeds(t, q, seeds, tuning.maxLong, tuning.seedLong)
    ensures full == TaskFor(t, tuning, q).Full(1, |t.nodes|)
    ensures seeds == TaskFor(t, tuning, q).SeedsIn(1, |t.nodes|)
    ensures tuning.costs.SwapDominates() && tuning.SeedCost(|typed|) <= tuning.MaxCost(|typed|) ==>
              seeds == TaskFor(t, tuning, q).BruteForceSeeds(|t.nodes|)
  {
    var ins := InsertCosts(tuning, typed);
    assert forall i | 0 <= i < |typed| :: ins[i] >= 0.0;
    q := Query(tuning.costs, typed, sub, ins);
    RootHoldsNothing(t, es);
    full, seeds := FindAll(TaskFor(t, tuning, q));
    forall e, cost | 0 <= e < |es|
      ensures Found(t, full, e, cost) <==> Due(es, tuning, q, e) && cost == Dist(q, es[e].key, |typed|)
    {
      FoundIfDue(t, es, tuning, q, full, e, cost);
    }
    SeedsAre(t, q, seeds, tuning.MaxCost(|typed|), tuning.SeedCost(|typed|));
  }

  lemma RootHoldsNothing(t: Trie, es: seq<Entry>)
    requires IsLexicon(t, es)
    ensures t.nodes[ROOT].entryCount == 0
  {
    assert RunOk(t.nodes[ROOT], es, t.keys[ROOT]);
    NoForms(es, []);
  }
}
