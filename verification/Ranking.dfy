/** The candidates for a typed word: every word within reach, and the best completions of the
    nearest prefixes, each once with its highest score, and the highest first. */
module Ranking {
  import opened Basics
  import opened Wrappers
  import opened Distance
  import opened Trie
  import opened Lexicon
  import opened Completion
  import opened Prediction
  import opened Search
  import opened Sorting
  import opened Text

  /** What a score is made of, how many prefixes are completed, and with how many words each. */
  datatype Weights = Weights(cost: real, penalty: real, perLetter: real, exact: real, seeds: nat, words: nat) {
    predicate NonNegative() {
      cost >= 0.0 && penalty >= 0.0 && perLetter >= 0.0 && exact >= 0.0
    }
  }

  datatype Offer = Offer(entry: nat, score: real, cost: real, completion: bool)

  /** A node, its distance and its depth. */
  type Seed = (nat, real, nat)

  // ---------------------------------------------------------------- what is offered

  /** Characters of a word in UTF-8. */
  function Letters(word: seq<Byte>): nat {
    if word == [] then 0 else Letters(word[1..]) + One(!(128 <= word[0] < 192))
  }

  function Score(w: Weights, frequency: nat, cost: real, extra: Option<nat>): real {
    var plain := frequency as real - w.cost * cost;
    match extra
    case Some(n) => plain - (w.penalty + w.perLetter * n as real)
    case None => if cost == 0.0 then plain + w.exact else plain
  }

  function Exact(es: seq<Entry>, w: Weights, e: nat, cost: real): Offer
    requires e < |es|
  {
    Offer(e, Score(w, es[e].frequency, cost, None), cost, false)
  }

  function Completed(es: seq<Entry>, w: Weights, e: nat, cost: real, depth: nat): Offer
    requires e < |es|
  {
    var n := Letters(es[e].word);
    Offer(e, Score(w, es[e].frequency, cost, Some(if n > depth then n - depth else 0)), cost, true)
  }

  function FormOffers(es: seq<Entry>, w: Weights, start: nat, count: nat, cost: real): seq<Offer>
    requires start + count <= |es|
  {
    if count == 0 then [] else FormOffers(es, w, start, count - 1, cost) + [Exact(es, w, start + count - 1, cost)]
  }

  predicate NodesKnown(nodes: seq<Node>, es: seq<Entry>, full: seq<(nat, real)>) {
    forall k {:trigger full[k]} | 0 <= k < |full| ::
      full[k].0 < |nodes| && nodes[full[k].0].entryStart + nodes[full[k].0].entryCount <= |es|
  }

  /** The words found, node by node. */
  function AllExact(nodes: seq<Node>, es: seq<Entry>, w: Weights, full: seq<(nat, real)>): seq<Offer>
    requires NodesKnown(nodes, es, full)
  {
    if full == [] then [] else
    var (j, cost) := full[|full| - 1];
    AllExact(nodes, es, w, full[..|full| - 1]) + FormOffers(es, w, nodes[j].entryStart, nodes[j].entryCount, cost)
  }

  predicate WordsKnown(es: seq<Entry>, words: seq<nat>) {
    forall n {:trigger words[n]} | 0 <= n < |words| :: words[n] < |es|
  }

  predicate AllWordsKnown(es: seq<Entry>, words: seq<seq<nat>>) {
    forall k {:trigger words[k]} | 0 <= k < |words| :: WordsKnown(es, words[k])
  }

  /** The completions of one seed. */
  function OfSeed(es: seq<Entry>, w: Weights, words: seq<nat>, seed: Seed): seq<Offer>
    requires WordsKnown(es, words)
  {
    if words == [] then [] else
    OfSeed(es, w, words[..|words| - 1], seed) + [Completed(es, w, words[|words| - 1], seed.1, seed.2)]
  }

  /** The completions of all of them, in their order. */
  function AllCompleted(es: seq<Entry>, w: Weights, seeds: seq<Seed>, words: seq<seq<nat>>): seq<Offer>
    requires |words| <= |seeds| && AllWordsKnown(es, words)
  {
    if words == [] then [] else
    var n := |words| - 1;
    AllCompleted(es, w, seeds, words[..n]) + OfSeed(es, w, words[n], seeds[n])
  }

  // ---------------------------------------------------------------- the best offer per entry

  /** `c` is the first of the highest offers for its entry. */
  ghost predicate FirstHighest(offers: seq<Offer>, c: Offer) {
    exists i :: 0 <= i < |offers| && offers[i] == c && HighestAt(offers, i)
  }

  ghost predicate HighestAt(offers: seq<Offer>, i: nat)
    requires i < |offers|
  {
    forall j {:trigger offers[j]} | 0 <= j < |offers| && offers[j].entry == offers[i].entry ::
      offers[j].score < offers[i].score || (offers[j].score == offers[i].score && i <= j)
  }

  ghost predicate IsBest(offers: seq<Offer>, best: map<nat, Offer>) {
    && (forall e | e in best :: best[e].entry == e && FirstHighest(offers, best[e]))
    && (forall i {:trigger offers[i]} | 0 <= i < |offers| :: offers[i].entry in best)
  }

  /** Takes an offer if it is the first for its entry or has a higher score. */
  function Take(best: map<nat, Offer>, c: Offer): map<nat, Offer> {
    if c.entry in best && c.score <= best[c.entry].score then best else best[c.entry := c]
  }

  lemma TakeKeeps(offers: seq<Offer>, best: map<nat, Offer>, c: Offer)
    requires IsBest(offers, best)
    ensures IsBest(offers + [c], Take(best, c))
  {
    var (more, next) := (offers + [c], Take(best, c));
    forall e | e in next ensures next[e].entry == e && FirstHighest(more, next[e]) {
      if e in best {
        assert FirstHighest(offers, best[e]);
        var i :| 0 <= i < |offers| && offers[i] == best[e] && HighestAt(offers, i);
        assert more[i] == best[e] && more[|offers|] == c;
        assert if e == c.entry && c.score > best[e].score then HighestAt(more, |offers|) else HighestAt(more, i);
      } else {
        assert more[|offers|] == c && HighestAt(more, |offers|);
      }
    }
  }

  // ---------------------------------------------------------------- the two loops that offer

  /** Offers the forms of one node. */
  method OfferForms(es: seq<Entry>, w: Weights, start: nat, count: nat, cost: real, first: map<nat, Offer>,
                    ghost before: seq<Offer>)
    returns (best: map<nat, Offer>)
    requires start + count <= |es| && IsBest(before, first)
    ensures IsBest(before + FormOffers(es, w, start, count, cost), best)
  {
    best := first;
    ghost var offers := before;
    for i := 0 to count
      invariant IsBest(offers, best) && offers == before + FormOffers(es, w, start, i, cost)
    {
      var c := Exact(es, w, start + i, cost);
      TakeKeeps(offers, best, c);
      best := Take(best, c);
      offers := offers + [c];
    }
  }

  lemma NextExact(nodes: seq<Node>, es: seq<Entry>, w: Weights, full: seq<(nat, real)>, k: nat)
    requires NodesKnown(nodes, es, full) && k < |full|
    ensures var node := nodes[full[k].0];
            AllExact(nodes, es, w, full[..k + 1]) ==
            AllExact(nodes, es, w, full[..k]) + FormOffers(es, w, node.entryStart, node.entryCount, full[k].1)
  {
    assert full[..k + 1][..k] == full[..k];
  }

  method OfferExact(nodes: seq<Node>, es: seq<Entry>, w: Weights, full: seq<(nat, real)>)
    returns (best: map<nat, Offer>)
    requires NodesKnown(nodes, es, full)
    ensures IsBest(AllExact(nodes, es, w, full), best)
  {
    best := map[];
    ghost var offers: seq<Offer> := [];
    for k := 0 to |full|
      invariant IsBest(offers, best) && offers == AllExact(nodes, es, w, full[..k])
    {
      var node := nodes[full[k].0];
      best := OfferForms(es, w, node.entryStart, node.entryCount, full[k].1, best, offers);
      NextExact(nodes, es, w, full, k);
      offers := offers + FormOffers(es, w, node.entryStart, node.entryCount, full[k].1);
    }
    assert full[..|full|] == full;
  }

  /** The words of each seed are its most frequent completions. */
  ghost predicate TopOfEach(t: Trie, es: seq<Entry>, w: Weights, seeds: seq<Seed>, words: seq<seq<nat>>) {
    && |words| <= |seeds|
    && forall k {:trigger words[k]} | 0 <= k < |words| ::
         seeds[k].0 < |t.keys| && TopWords(t, es, seeds[k].0, w.words, words[k])
  }

  lemma TopAreKnown(t: Trie, es: seq<Entry>, w: Weights, seeds: seq<Seed>, words: seq<seq<nat>>)
    requires TopOfEach(t, es, w, seeds, words)
    ensures AllWordsKnown(es, words)
  {
    forall k {:trigger words[k]} | 0 <= k < |words| ensures WordsKnown(es, words[k]) {
      forall n {:trigger words[k][n]} | 0 <= n < |words[k]| ensures words[k][n] < |es| {
        assert Completes(t, es, seeds[k].0, words[k][n]);
      }
    }
  }

  method OfferWords(es: seq<Entry>, w: Weights, words: seq<nat>, seed: Seed, first: map<nat, Offer>,
                    ghost before: seq<Offer>)
    returns (best: map<nat, Offer>)
    requires WordsKnown(es, words) && IsBest(before, first)
    ensures IsBest(before + OfSeed(es, w, words, seed), best)
  {
    best := first;
    ghost var offers := before;
    for n := 0 to |words|
      invariant IsBest(offers, best) && offers == before + OfSeed(es, w, words[..n], seed)
    {
      var c := Completed(es, w, words[n], seed.1, seed.2);
      TakeKeeps(offers, best, c);
      best := Take(best, c);
      assert words[..n + 1][..n] == words[..n];
      offers := offers + [c];
    }
    assert words[..|words|] == words;
  }

  /** The best offers before any seed and of the seeds completed so far. */
  ghost predicate Tally(es: seq<Entry>, w: Weights, seeds: seq<Seed>, words: seq<seq<nat>>, before: seq<Offer>,
                        best: map<nat, Offer>)
  {
    |words| <= |seeds| && AllWordsKnown(es, words) && IsBest(before + AllCompleted(es, w, seeds, words), best)
  }

  lemma MoreCompleted(es: seq<Entry>, w: Weights, seeds: seq<Seed>, words: seq<seq<nat>>, out: seq<nat>)
    requires |words| < |seeds| && AllWordsKnown(es, words) && WordsKnown(es, out)
    ensures AllWordsKnown(es, words + [out])
    ensures AllCompleted(es, w, seeds, words + [out]) ==
            AllCompleted(es, w, seeds, words) + OfSeed(es, w, out, seeds[|words|])
  {
    var more := words + [out];
    assert more[..|words|] == words && more[|words|] == out;
  }

  lemma NextTally(es: seq<Entry>, w: Weights, seeds: seq<Seed>, words: seq<seq<nat>>, out: seq<nat>,
                  before: seq<Offer>, best: map<nat, Offer>)
    requires |words| < |seeds| && AllWordsKnown(es, words) && WordsKnown(es, out)
    requires IsBest(before + AllCompleted(es, w, seeds, words) + OfSeed(es, w, out, seeds[|words|]), best)
    ensures Tally(es, w, seeds, words + [out], before, best)
  {
    MoreCompleted(es, w, seeds, words, out);
    var (b, c) := (AllCompleted(es, w, seeds, words), OfSeed(es, w, out, seeds[|words|]));
    Associate(before, before + b, b, c);
  }

  lemma OneMoreTop(t: Trie, es: seq<Entry>, w: Weights, seeds: seq<Seed>, words: seq<seq<nat>>, out: seq<nat>)
    requires TopOfEach(t, es, w, seeds, words) && |words| < |seeds|
    requires seeds[|words|].0 < |t.keys| && TopWords(t, es, seeds[|words|].0, w.words, out)
    ensures TopOfEach(t, es, w, seeds, words + [out]) && WordsKnown(es, out)
  {
    var more := words + [out];
    TopAreKnown(t, es, w, seeds, more);
    assert more[|words|] == out;
  }

  method OfferSeed(t: Trie, es: seq<Entry>, w: Weights, seeds: seq<Seed>, words: seq<seq<nat>>,
                   ghost before: seq<Offer>, first: map<nat, Offer>)
    returns (best: map<nat, Offer>, out: seq<nat>)
    requires IsLexicon(t, es) && |words| < |seeds| && seeds[|words|].0 < |t.nodes|
    requires TopOfEach(t, es, w, seeds, words) && Tally(es, w, seeds, words, before, first)
    ensures TopOfEach(t, es, w, seeds, words + [out]) && Tally(es, w, seeds, words + [out], before, best)
  {
    out := Complete(t, es, seeds[|words|].0, w.words);
    OneMoreTop(t, es, w, seeds, words, out);
    best := OfferWords(es, w, out, seeds[|words|], first, before + AllCompleted(es, w, seeds, words));
    NextTally(es, w, seeds, words, out, before, best);
  }

  method OfferCompleted(t: Trie, es: seq<Entry>, w: Weights, seeds: seq<Seed>, first: map<nat, Offer>,
                        ghost before: seq<Offer>)
    returns (best: map<nat, Offer>, words: seq<seq<nat>>)
    requires IsLexicon(t, es) && IsBest(before, first)
    requires forall k {:trigger seeds[k]} | 0 <= k < |seeds| :: seeds[k].0 < |t.nodes|
    ensures |words| == |seeds| && TopOfEach(t, es, w, seeds, words) && Tally(es, w, seeds, words, before, best)
  {
    best, words := first, [];
    assert before + AllCompleted(es, w, seeds, []) == before;
    for k := 0 to |seeds|
      invariant |words| == k && TopOfEach(t, es, w, seeds, words) && Tally(es, w, seeds, words, before, best)
    {
      var out;
      best, out := OfferSeed(t, es, w, seeds, words, before, best);
      words := words + [out];
    }
  }

  // ---------------------------------------------------------------- the nearest prefixes

  function BestAt(nodes: seq<Node>, i: nat): nat {
    if i < |nodes| then nodes[i].best else 0
  }

  /** The nearer first, then the one with the more frequent word below it. */
  function Nearer(nodes: seq<Node>): (Seed, Seed) -> bool {
    (a: Seed, b: Seed) => a.1 < b.1 || (a.1 == b.1 && BestAt(nodes, a.0) >= BestAt(nodes, b.0))
  }

  /** And then the earlier in the trie. */
  function Sooner(nodes: seq<Node>): (Seed, Seed) -> bool {
    (a: Seed, b: Seed) => a.1 < b.1 || (a.1 == b.1 && (BestAt(nodes, a.0) > BestAt(nodes, b.0) ||
                                                       (BestAt(nodes, a.0) == BestAt(nodes, b.0) && a.0 <= b.0)))
  }

  /** `a` is nearer than `b`; or as near, with a more frequent word below it; or with as frequent a
      one, and no later in the trie. */
  ghost predicate Precedes(nodes: seq<Node>, a: Seed, b: Seed)
    requires a.0 < |nodes| && b.0 < |nodes|
  {
    && a.1 <= b.1
    && (a.1 == b.1 ==> nodes[a.0].best >= nodes[b.0].best)
    && (a.1 == b.1 && nodes[a.0].best == nodes[b.0].best ==> a.0 <= b.0)
  }

  ghost predicate Inside(nodes: seq<Node>, seeds: seq<Seed>) {
    forall c | c in seeds :: c.0 < |nodes|
  }

  /** `chosen` are the first `k` of the seeds, or all of them, in this order. */
  ghost predicate FirstSeeds(nodes: seq<Node>, seeds: seq<Seed>, k: nat, chosen: seq<Seed>) {
    && |chosen| == (if k < |seeds| then k else |seeds|)
    && Inside(nodes, seeds) && (forall c | c in chosen :: c in seeds) && Distinct(chosen)
    && (forall i, j | 0 <= i < j < |chosen| :: chosen[i] in seeds && chosen[j] in seeds
                                               && Precedes(nodes, chosen[i], chosen[j]))
    && (forall c, d | c in chosen && d in seeds && d !in chosen :: Precedes(nodes, c, d))
  }

  ghost predicate Ascending(seeds: seq<Seed>, hi: nat) {
    && (forall i {:trigger seeds[i]} | 0 <= i < |seeds| :: seeds[i].0 < hi)
    && (forall i, j | 0 <= i < j < |seeds| :: seeds[i].0 < seeds[j].0)
  }

  lemma {:induction false} SeedsAscend(task: Task, hi: nat)
    requires task.Valid() && 1 <= hi <= |task.trie.nodes|
    ensures Ascending(task.SeedsIn(1, hi), hi)
    decreases hi
  {
    if hi > 1 { SeedsAscend(task, hi - 1); }
  }

  lemma {:induction false} FoundInside(task: Task, hi: nat)
    requires task.Valid() && 1 <= hi <= |task.trie.nodes|
    ensures forall k {:trigger task.Full(1, hi)[k]} | 0 <= k < |task.Full(1, hi)| :: task.Full(1, hi)[k].0 < hi
    decreases hi
  {
    if hi > 1 { FoundInside(task, hi - 1); }
  }

  /** A stable sort by the first two leaves the order of all three. */
  lemma SortedBySooner(nodes: seq<Node>, seeds: seq<Seed>)
    requires Ascending(seeds, |nodes|)
    ensures var r := Sort(Nearer(nodes), seeds);
            Sorted(Sooner(nodes), r) && Distinct(r) && multiset(r) == multiset(seeds)
  {
    SortIsStable(Nearer(nodes), Sooner(nodes), seeds);
    SortSorts(Sooner(nodes), seeds);
    PermutationKeeps(seeds, Sort(Sooner(nodes), seeds));
  }

  lemma SoonerPrecedes(nodes: seq<Node>, a: Seed, b: Seed)
    requires a.0 < |nodes| && b.0 < |nodes|
    ensures Sooner(nodes)(a, b) <==> Precedes(nodes, a, b)
  {
  }

  lemma PrefixIsFirst(nodes: seq<Node>, seeds: seq<Seed>, r: seq<Seed>, k: nat)
    requires Sorted(Sooner(nodes), r) && Distinct(r) && multiset(r) == multiset(seeds) && Inside(nodes, seeds)
    ensures FirstSeeds(nodes, seeds, k, r[..if k < |r| then k else |r|])
  {
    PermutationKeeps(r, seeds);
    assert |r| == |multiset(r)| == |seeds|;
    var m := if k < |r| then k else |r|;
    forall i, j | 0 <= i < j < |r| ensures r[i] in seeds && r[j] in seeds && Precedes(nodes, r[i], r[j]) {
      assert r[i] in r && r[j] in r;
      SoonerPrecedes(nodes, r[i], r[j]);
    }
    forall c, d | c in r[..m] && d in seeds && d !in r[..m] ensures Precedes(nodes, c, d) {
      assert d in r;
      var i :| 0 <= i < m && r[..m][i] == c;
      var j :| 0 <= j < |r| && r[j] == d;
      assert j >= m;
    }
  }

  // ---------------------------------------------------------------- the ranking

  predicate Higher(a: Offer, b: Offer) {
    a.score > b.score || (a.score == b.score && a.entry <= b.entry)
  }

  ghost predicate Shows(out: seq<Offer>, e: nat) {
    exists j :: 0 <= j < |out| && out[j].entry == e
  }

  /** `out` has, for every entry offered, the first of its highest offers; the highest first, and
      of equal ones the one with the smaller number. */
  ghost predicate Ranks(offers: seq<Offer>, out: seq<Offer>) {
    && Sorted(Higher, out) && Distinct(out)
    && (forall c | c in out :: FirstHighest(offers, c))
    && (forall i {:trigger offers[i]} | 0 <= i < |offers| :: Shows(out, offers[i].entry))
  }

  /** The values of the map, in any order. */
  method Values(best: map<nat, Offer>) returns (vs: seq<Offer>)
    requires forall e | e in best :: best[e].entry == e
    ensures Distinct(vs) && (forall e | e in best :: best[e] in vs)
    ensures forall c | c in vs :: c.entry in best && best[c.entry] == c
  {
    vs := [];
    var left := best.Keys;
    while left != {}
      invariant left <= best.Keys && Distinct(vs)
      invariant forall e | e in best && e !in left :: best[e] in vs
      invariant forall c | c in vs :: c.entry in best && c.entry !in left && best[c.entry] == c
    {
      var e :| e in left;
      vs := vs + [best[e]];
      left := left - {e};
    }
  }

  method Ordered(best: map<nat, Offer>, ghost offers: seq<Offer>) returns (out: seq<Offer>)
    requires IsBest(offers, best)
    ensures Ranks(offers, out)
  {
    var vs := Values(best);
    SortSorts(Higher, vs);
    out := Sort(Higher, vs);
    PermutationKeeps(vs, out);
    forall i {:trigger offers[i]} | 0 <= i < |offers| ensures Shows(out, offers[i].entry) {
      var c := best[offers[i].entry];
      assert c in out;
    }
  }

  // ---------------------------------------------------------------- all together

  lemma {:induction false} InForms(es: seq<Entry>, w: Weights, start: nat, count: nat, cost: real, c: Offer)
    requires start + count <= |es|
    ensures c in FormOffers(es, w, start, count, cost) <==>
            start <= c.entry < start + count && c == Exact(es, w, c.entry, cost)
    decreases count
  {
    if count > 0 { InForms(es, w, start, count - 1, cost, c); }
  }

  lemma FoundLast(t: Trie, full: seq<(nat, real)>, e: nat, cost: real)
    requires full != [] && full[|full| - 1].0 < |t.nodes|
    ensures var node := t.nodes[full[|full| - 1].0];
            Found(t, full, e, cost) <==>
            || Found(t, full[..|full| - 1], e, cost)
            || (full[|full| - 1].1 == cost && node.entryStart <= e < node.entryStart + node.entryCount)
  {
    var (init, last) := (full[..|full| - 1], full[|full| - 1]);
    assert full == init + [last] && last == (last.0, last.1);
  }

  /** The exact offers are for the entries found. */
  lemma {:induction false} OffersAreFound(t: Trie, es: seq<Entry>, w: Weights, full: seq<(nat, real)>, c: Offer)
    requires NodesKnown(t.nodes, es, full)
    ensures c in AllExact(t.nodes, es, w, full) <==>
            c.entry < |es| && Found(t, full, c.entry, c.cost) && c == Exact(es, w, c.entry, c.cost)
    decreases |full|
  {
    if full != [] {
      var (j, cost) := full[|full| - 1];
      OffersAreFound(t, es, w, full[..|full| - 1], c);
      InForms(es, w, t.nodes[j].entryStart, t.nodes[j].entryCount, cost, c);
      FoundLast(t, full, c.entry, c.cost);
    }
  }

  /** The offers are those of the entries due, each at its distance. */
  ghost predicate OffersDue(es: seq<Entry>, tuning: Tuning, w: Weights, q: Query, offers: seq<Offer>)
    requires q.Valid()
  {
    forall c :: c in offers <==> c.entry < |es| && Due(es, tuning, q, c.entry)
                                 && c == Exact(es, w, c.entry, Dist(q, es[c.entry].key, |q.typed|))
  }

  lemma ExactAreDue(t: Trie, es: seq<Entry>, tuning: Tuning, w: Weights, q: Query, full: seq<(nat, real)>)
    requires t.Valid() && q.Valid() && IsLexicon(t, es) && q.costs == tuning.costs
    requires full == TaskFor(t, tuning, q).Full(1, |t.nodes|) && NodesKnown(t.nodes, es, full)
    ensures OffersDue(es, tuning, w, q, AllExact(t.nodes, es, w, full))
  {
    forall c
      ensures c in AllExact(t.nodes, es, w, full) <==>
              c.entry < |es| && Due(es, tuning, q, c.entry)
              && c == Exact(es, w, c.entry, Dist(q, es[c.entry].key, |q.typed|))
    {
      OffersAreFound(t, es, w, full, c);
      if c.entry < |es| { FoundIfDue(t, es, tuning, q, full, c.entry, c.cost); }
    }
  }

  /** What is found can be offered. */
  lemma FoundKnown(t: Trie, es: seq<Entry>, tuning: Tuning, q: Query)
    requires q.Valid() && IsLexicon(t, es)
    ensures NodesKnown(t.nodes, es, TaskFor(t, tuning, q).Full(1, |t.nodes|))
    ensures Ascending(TaskFor(t, tuning, q).SeedsIn(1, |t.nodes|), |t.nodes|)
  {
    FoundInside(TaskFor(t, tuning, q), |t.nodes|);
    SeedsAscend(TaskFor(t, tuning, q), |t.nodes|);
  }

  /** The candidates for what was typed: `exact` offers the words within reach, each at its exact
      distance, `chosen` are the nearest prefixes and `words` their best completions, and the
      result ranks the best offer for every one of these words. */
  method Candidates(t: Trie, es: seq<Entry>, tuning: Tuning, w: Weights, typed: seq<Byte>, sub: seq<seq<real>>)
    returns (out: seq<Offer>, q: Query, chosen: seq<Seed>, words: seq<seq<nat>>, ghost exact: seq<Offer>)
    requires IsLexicon(t, es) && tuning.NonNegative() && Fits(typed, sub)
    ensures Asks(q, tuning, typed, sub) && OffersDue(es, tuning, w, q, exact)
    ensures FirstSeeds(t.nodes, TaskFor(t, tuning, q).SeedsIn(1, |t.nodes|), w.seeds, chosen)
    ensures |words| == |chosen| && TopOfEach(t, es, w, chosen, words) && AllWordsKnown(es, words)
    ensures Ranks(exact + AllCompleted(es, w, chosen, words), out)
  {
    var full, seeds;
    full, seeds, q := Suggest(t, es, tuning, typed, sub);
    FoundKnown(t, es, tuning, q);
    ExactAreDue(t, es, tuning, w, q, full);
    exact := AllExact(t.nodes, es, w, full);
    var best := OfferExact(t.nodes, es, w, full);
    chosen := Nearest(t.nodes, seeds, w.seeds);
    best, words := OfferCompleted(t, es, w, chosen, best, exact);
    out := Ordered(best, exact + AllCompleted(es, w, chosen, words));
  }

  method Nearest(nodes: seq<Node>, seeds: seq<Seed>, k: nat) returns (chosen: seq<Seed>)
    requires Ascending(seeds, |nodes|)
    ensures FirstSeeds(nodes, seeds, k, chosen)
    ensures forall i {:trigger chosen[i]} | 0 <= i < |chosen| :: chosen[i].0 < |nodes|
  {
    var sorted := Sort(Nearer(nodes), seeds);
    SortedBySooner(nodes, seeds);
    forall c | c in seeds ensures c.0 < |nodes| { var i :| 0 <= i < |seeds| && seeds[i] == c; }
    PrefixIsFirst(nodes, seeds, sorted, k);
    chosen := sorted[..if k < |sorted| then k else |sorted|];
    forall i {:trigger chosen[i]} | 0 <= i < |chosen| ensures chosen[i].0 < |nodes| { assert chosen[i] in seeds; }
  }

  // ---------------------------------------------------------------- what the ranking means

  /** The offers leave no choice, whatever order the map gives its values in. */
  lemma OneRanking(offers: seq<Offer>, out: seq<Offer>, out': seq<Offer>)
    requires Ranks(offers, out) && Ranks(offers, out')
    ensures out == out'
  {
    forall c ensures c in out <==> c in out' {
      if c in out { RankedIn(offers, out', c); }
      if c in out' { RankedIn(offers, out, c); }
    }
    forall a, b | a in out && b in out && Higher(a, b) && Higher(b, a) ensures a == b { OneOffer(offers, a, b); }
    SortedOnce(Higher, out, out');
  }

  lemma OneOffer(offers: seq<Offer>, a: Offer, b: Offer)
    requires FirstHighest(offers, a) && FirstHighest(offers, b) && a.entry == b.entry
    ensures a == b
  {
    var i :| 0 <= i < |offers| && offers[i] == a && HighestAt(offers, i);
    var j :| 0 <= j < |offers| && offers[j] == b && HighestAt(offers, j);
  }

  lemma RankedIn(offers: seq<Offer>, out: seq<Offer>, c: Offer)
    requires Ranks(offers, out) && FirstHighest(offers, c)
    ensures c in out
  {
    var i :| 0 <= i < |offers| && offers[i] == c && HighestAt(offers, i);
    assert Shows(out, offers[i].entry);
    var j :| 0 <= j < |out| && out[j].entry == c.entry;
    OneOffer(offers, out[j], c);
  }

  lemma {:induction false} WordsOfSeed(es: seq<Entry>, w: Weights, words: seq<nat>, seed: Seed, e: nat)
    requires WordsKnown(es, words)
    ensures Shows(OfSeed(es, w, words, seed), e) <==> e in words
    decreases |words|
  {
    if words != [] {
      var n := |words| - 1;
      WordsOfSeed(es, w, words[..n], seed, e);
      var c := Completed(es, w, words[n], seed.1, seed.2);
      ShowsJoin(OfSeed(es, w, words[..n], seed), [c], e);
      assert [c][0] == c && c.entry == words[n];
      assert words == words[..n] + [words[n]];
    }
  }

  lemma ShowsJoin(a: seq<Offer>, b: seq<Offer>, e: nat)
    ensures Shows(a + b, e) <==> Shows(a, e) || Shows(b, e)
  {
    if Shows(a, e) {
      var j :| 0 <= j < |a| && a[j].entry == e;
      assert (a + b)[j].entry == e;
    }
    if Shows(b, e) {
      var j :| 0 <= j < |b| && b[j].entry == e;
      assert (a + b)[|a| + j].entry == e;
    }
  }

  ghost predicate CompletedBy(words: seq<seq<nat>>, e: nat) {
    exists k :: 0 <= k < |words| && e in words[k]
  }

  lemma {:induction false} WordsOfSeeds(es: seq<Entry>, w: Weights, seeds: seq<Seed>, words: seq<seq<nat>>, e: nat)
    requires |words| <= |seeds| && AllWordsKnown(es, words)
    ensures Shows(AllCompleted(es, w, seeds, words), e) <==> CompletedBy(words, e)
    decreases |words|
  {
    if words != [] {
      var n := |words| - 1;
      WordsOfSeeds(es, w, seeds, words[..n], e);
      WordsOfSeed(es, w, words[n], seeds[n], e);
      ShowsJoin(AllCompleted(es, w, seeds, words[..n]), OfSeed(es, w, words[n], seeds[n]), e);
      assert CompletedBy(words, e) <==> CompletedBy(words[..n], e) || e in words[n];
    }
  }

  lemma RanksShow(offers: seq<Offer>, out: seq<Offer>, e: nat)
    requires Ranks(offers, out)
    ensures Shows(out, e) <==> Shows(offers, e)
  {
    if Shows(out, e) {
      var j :| 0 <= j < |out| && out[j].entry == e;
      assert FirstHighest(offers, out[j]);
    }
  }

  /** The candidates are the words within reach and the completions of the nearest prefixes, and
      no other words. */
  lemma ShownExactly(es: seq<Entry>, tuning: Tuning, w: Weights, q: Query, exact: seq<Offer>, chosen: seq<Seed>,
                     words: seq<seq<nat>>, out: seq<Offer>, e: nat)
    requires q.Valid() && OffersDue(es, tuning, w, q, exact) && |words| <= |chosen| && AllWordsKnown(es, words)
    requires Ranks(exact + AllCompleted(es, w, chosen, words), out)
    ensures Shows(out, e) <==> (e < |es| && Due(es, tuning, q, e)) || CompletedBy(words, e)
  {
    RanksShow(exact + AllCompleted(es, w, chosen, words), out, e);
    ShowsJoin(exact, AllCompleted(es, w, chosen, words), e);
    WordsOfSeeds(es, w, chosen, words, e);
    if e < |es| && Due(es, tuning, q, e) {
      var c := Exact(es, w, e, Dist(q, es[e].key, |q.typed|));
      assert c in exact;
    }
    if Shows(exact, e) {
      var j :| 0 <= j < |exact| && exact[j].entry == e;
      assert exact[j] in exact;
    }
  }

  // ---------------------------------------------------------------- a word within reach is itself

  /** A completion scores no higher than the word itself at no greater distance. */
  lemma CompletionScoresLess(w: Weights, frequency: nat, near: real, far: real, extra: nat)
    requires w.NonNegative() && near <= far
    ensures Score(w, frequency, far, Some(extra)) <= Score(w, frequency, near, None)
  {
    assert w.cost * (far - near) >= 0.0;
    assert w.perLetter * extra as real >= 0.0;
  }

  lemma {:induction false} OfSeedMeans(es: seq<Entry>, w: Weights, words: seq<nat>, seed: Seed, c: Offer)
    requires WordsKnown(es, words) && c in OfSeed(es, w, words, seed)
    ensures c.entry in words && c.entry < |es| && c == Completed(es, w, c.entry, seed.1, seed.2)
    decreases |words|
  {
    var n := |words| - 1;
    var last := Completed(es, w, words[n], seed.1, seed.2);
    if c != last { OfSeedMeans(es, w, words[..n], seed, c); }
  }

  lemma {:induction false} CompletedMeans(es: seq<Entry>, w: Weights, seeds: seq<Seed>, words: seq<seq<nat>>, c: Offer)
    returns (k: nat)
    requires |words| <= |seeds| && AllWordsKnown(es, words) && c in AllCompleted(es, w, seeds, words)
    ensures k < |words| && c.entry in words[k] && c.entry < |es|
    ensures c == Completed(es, w, c.entry, seeds[k].1, seeds[k].2)
    decreases |words|
  {
    var n := |words| - 1;
    if c in OfSeed(es, w, words[n], seeds[n]) {
      OfSeedMeans(es, w, words[n], seeds[n], c);
      k := n;
    } else {
      k := CompletedMeans(es, w, seeds, words[..n], c);
    }
  }

  /** Of two equal offers the earlier is kept, so none of a later part is if one before it is as
      high. */
  lemma EarlierPartKept(first: seq<Offer>, later: seq<Offer>, x: Offer, c: Offer)
    requires FirstHighest(first + later, x) && c in first && c.entry == x.entry && x !in first
    ensures c.score < x.score && x in later
  {
    var offers := first + later;
    var j :| 0 <= j < |offers| && offers[j] == x && HighestAt(offers, j);
    var i :| 0 <= i < |first| && first[i] == c;
    assert offers[i] == c;
  }

  /** No nearer prefix is completed by entry `e`. */
  ghost predicate NoneNearer(chosen: seq<Seed>, words: seq<seq<nat>>, e: nat, near: real)
    requires |words| <= |chosen|
  {
    forall k | 0 <= k < |words| && e in words[k] :: near <= chosen[k].1
  }

  lemma NoneHigher(es: seq<Entry>, w: Weights, chosen: seq<Seed>, words: seq<seq<nat>>, near: real, x: Offer)
    requires |words| <= |chosen| && AllWordsKnown(es, words) && w.NonNegative()
    requires x in AllCompleted(es, w, chosen, words) && NoneNearer(chosen, words, x.entry, near)
    ensures x.entry < |es| && x.score <= Exact(es, w, x.entry, near).score
  {
    var k := CompletedMeans(es, w, chosen, words, x);
    var (n, depth) := (Letters(es[x.entry].word), chosen[k].2);
    CompletionScoresLess(w, es[x.entry].frequency, near, chosen[k].1, if n > depth then n - depth else 0);
  }

  lemma ShownOffer(offers: seq<Offer>, out: seq<Offer>, c: Offer) returns (x: Offer)
    requires Ranks(offers, out) && c in offers
    ensures x in out && x.entry == c.entry && FirstHighest(offers, x)
  {
    var i :| 0 <= i < |offers| && offers[i] == c;
    assert Shows(out, offers[i].entry);
    var j :| 0 <= j < |out| && out[j].entry == c.entry;
    x := out[j];
  }

  lemma FirstPartShown(first: seq<Offer>, later: seq<Offer>, out: seq<Offer>, c: Offer)
    requires Ranks(first + later, out) && c in first
    requires forall x | x in first && x.entry == c.entry :: x == c
    requires forall x | x in later && x.entry == c.entry :: x.score <= c.score
    ensures c in out
  {
    var x := ShownOffer(first + later, out, c);
    if x !in first { EarlierPartKept(first, later, x, c); }
  }

  /** A word within reach is a candidate as itself, at its own distance, unless it also completes a
      prefix that is nearer. */
  lemma WordIsItself(es: seq<Entry>, tuning: Tuning, w: Weights, q: Query, exact: seq<Offer>, chosen: seq<Seed>,
                     words: seq<seq<nat>>, out: seq<Offer>, e: nat)
    requires q.Valid() && OffersDue(es, tuning, w, q, exact) && |words| <= |chosen| && AllWordsKnown(es, words)
    requires Ranks(exact + AllCompleted(es, w, chosen, words), out)
    requires w.NonNegative() && e < |es| && Due(es, tuning, q, e)
    requires NoneNearer(chosen, words, e, Dist(q, es[e].key, |q.typed|))
    ensures Exact(es, w, e, Dist(q, es[e].key, |q.typed|)) in out
  {
    var near := Dist(q, es[e].key, |q.typed|);
    var (c, later) := (Exact(es, w, e, near), AllCompleted(es, w, chosen, words));
    forall x | x in later && x.entry == e ensures x.score <= c.score { NoneHigher(es, w, chosen, words, near, x); }
    FirstPartShown(exact, later, out, c);
  }

  // ---------------------------------------------------------------- what the order says of the words

  /** A candidate of its own: its frequency less what its distance costs, and the bonus if it was
      typed exactly. */
  ghost predicate ScoresItself(es: seq<Entry>, w: Weights, c: Offer) {
    && c.entry < |es| && !c.completion
    && (c.cost == 0.0 ==> c.score == es[c.entry].frequency as real + w.exact)
    && (c.cost != 0.0 ==> c.score == es[c.entry].frequency as real - w.cost * c.cost)
  }

  /** One that completes a prefix, with `n` letters more: less the penalty, and something for each
      letter. */
  ghost predicate ScoresCompletion(es: seq<Entry>, w: Weights, c: Offer, n: nat) {
    && c.entry < |es| && c.completion
    && c.score == es[c.entry].frequency as real - w.cost * c.cost - w.penalty - w.perLetter * n as real
  }

  /** How many letters `word` has beyond `depth`. */
  ghost predicate Beyond(word: seq<Byte>, depth: nat, n: nat) {
    Letters(word) == depth + n || (n == 0 && Letters(word) < depth)
  }

  lemma ScoreMeans(es: seq<Entry>, w: Weights, e: nat, cost: real, depth: nat, n: nat)
    requires e < |es| && Beyond(es[e].word, depth, n)
    ensures ScoresItself(es, w, Exact(es, w, e, cost))
    ensures ScoresCompletion(es, w, Completed(es, w, e, cost, depth), n)
  {
    if cost == 0.0 { assert w.cost * cost == 0.0; }
  }

  /** Every candidate is a word within reach at its own distance, or completes a chosen prefix at the
      prefix's, and is scored as such. */
  ghost predicate WellScored(es: seq<Entry>, tuning: Tuning, w: Weights, q: Query, chosen: seq<Seed>,
                             words: seq<seq<nat>>, c: Offer)
    requires q.Valid() && |words| <= |chosen|
  {
    if !c.completion then
      && ScoresItself(es, w, c)
      && Due(es, tuning, q, c.entry) && c.cost == Dist(q, es[c.entry].key, |q.typed|)
    else
      exists k, n: nat :: 0 <= k < |words| && c.entry in words[k] && c.cost == chosen[k].1
                          && ScoresCompletion(es, w, c, n) && Beyond(es[c.entry].word, chosen[k].2, n)
  }

  lemma CandidateScored(es: seq<Entry>, tuning: Tuning, w: Weights, q: Query, exact: seq<Offer>, chosen: seq<Seed>,
                        words: seq<seq<nat>>, out: seq<Offer>, c: Offer)
    requires q.Valid() && OffersDue(es, tuning, w, q, exact) && |words| <= |chosen| && AllWordsKnown(es, words)
    requires Ranks(exact + AllCompleted(es, w, chosen, words), out) && c in out
    ensures WellScored(es, tuning, w, q, chosen, words, c)
  {
    assert FirstHighest(exact + AllCompleted(es, w, chosen, words), c);
    if c in AllCompleted(es, w, chosen, words) {
      var k := CompletedMeans(es, w, chosen, words, c);
      var (m, depth) := (Letters(es[c.entry].word), chosen[k].2);
      var n := if m > depth then m - depth else 0;
      ScoreMeans(es, w, c.entry, c.cost, depth, n);
    } else {
      assert c in exact;
      ScoreMeans(es, w, c.entry, c.cost, Letters(es[c.entry].word), 0);
    }
  }

  /** The place in the result follows the score, and of two equal scores the number of the entry. */
  lemma HigherFirst(offers: seq<Offer>, out: seq<Offer>, i: nat, j: nat)
    requires Ranks(offers, out) && i < |out| && j < |out|
    requires out[i].score > out[j].score || (out[i].score == out[j].score && out[i].entry < out[j].entry)
    ensures i < j
  {
    assert j < i ==> Higher(out[j], out[i]);
  }

  /** Of two words at one distance, both themselves or both with as many letters more, the more
      frequent comes first. */
  lemma FrequentFirst(es: seq<Entry>, w: Weights, offers: seq<Offer>, out: seq<Offer>, i: nat, j: nat, n: nat)
    requires Ranks(offers, out) && i < |out| && j < |out| && out[i].cost == out[j].cost
    requires || (ScoresItself(es, w, out[i]) && ScoresItself(es, w, out[j]))
             || (ScoresCompletion(es, w, out[i], n) && ScoresCompletion(es, w, out[j], n))
    requires es[out[i].entry].frequency > es[out[j].entry].frequency
    ensures i < j
  {
    HigherFirst(offers, out, i, j);
  }

  /** Of two equally frequent ones the nearer does. */
  lemma NearerFirst(es: seq<Entry>, w: Weights, offers: seq<Offer>, out: seq<Offer>, i: nat, j: nat, n: nat)
    requires Ranks(offers, out) && i < |out| && j < |out| && 0.0 <= out[i].cost < out[j].cost
    requires w.cost > 0.0 && w.exact >= 0.0
    requires || (ScoresItself(es, w, out[i]) && ScoresItself(es, w, out[j]))
             || (ScoresCompletion(es, w, out[i], n) && ScoresCompletion(es, w, out[j], n))
    requires es[out[i].entry].frequency == es[out[j].entry].frequency
    ensures i < j
  {
    assert w.cost * (out[j].cost - out[i].cost) > 0.0;
    HigherFirst(offers, out, i, j);
  }

  /** And of two equally frequent completions at one distance the shorter. */
  lemma ShorterFirst(es: seq<Entry>, w: Weights, offers: seq<Offer>, out: seq<Offer>, i: nat, j: nat, m: nat, n: nat)
    requires Ranks(offers, out) && i < |out| && j < |out| && out[i].cost == out[j].cost
    requires w.perLetter > 0.0 && m < n
    requires ScoresCompletion(es, w, out[i], m) && ScoresCompletion(es, w, out[j], n)
    requires es[out[i].entry].frequency == es[out[j].entry].frequency
    ensures i < j
  {
    assert w.perLetter * (n - m) as real > 0.0;
    HigherFirst(offers, out, i, j);
  }

  /** So among the words within reach. */
  lemma WordsInOrder(es: seq<Entry>, tuning: Tuning, w: Weights, q: Query, exact: seq<Offer>, chosen: seq<Seed>,
                     words: seq<seq<nat>>, out: seq<Offer>, i: nat, j: nat)
    requires q.Valid() && OffersDue(es, tuning, w, q, exact) && |words| <= |chosen| && AllWordsKnown(es, words)
    requires Ranks(exact + AllCompleted(es, w, chosen, words), out)
    requires i < |out| && j < |out| && !out[i].completion && !out[j].completion
    ensures out[i].entry < |es| && out[j].entry < |es|
    ensures var (a, b) := (es[out[i].entry], es[out[j].entry]);
            && (Dist(q, a.key, |q.typed|) == Dist(q, b.key, |q.typed|) && a.frequency > b.frequency ==> i < j)
            && (w.cost > 0.0 && w.exact >= 0.0 && a.frequency == b.frequency ==>
                  Dist(q, a.key, |q.typed|) < Dist(q, b.key, |q.typed|) ==> i < j)
  {
    var offers := exact + AllCompleted(es, w, chosen, words);
    CandidateScored(es, tuning, w, q, exact, chosen, words, out, out[i]);
    CandidateScored(es, tuning, w, q, exact, chosen, words, out, out[j]);
    var (a, b) := (es[out[i].entry], es[out[j].entry]);
    if out[i].cost == out[j].cost && a.frequency > b.frequency { FrequentFirst(es, w, offers, out, i, j, 0); }
    if out[i].cost < out[j].cost && a.frequency == b.frequency && w.cost > 0.0 && w.exact >= 0.0 {
      NearerFirst(es, w, offers, out, i, j, 0);
    }
  }

  /** The shipped weights. */
  const SHIPPED := Weights(105.0, 12.0, 3.0, 35.0, 8, 4)

  /** With them, a word of frequency 200 typed exactly scores 235; at distance 0.4 it scores 158; and
      as a completion with two letters more, at no distance, 182. */
  lemma ShippedScores(es: seq<Entry>, e: nat, depth: nat)
    requires e < |es| && es[e].frequency == 200 && Letters(es[e].word) == depth + 2
    ensures Exact(es, SHIPPED, e, 0.0).score == 235.0 && Exact(es, SHIPPED, e, 0.4).score == 158.0
    ensures Completed(es, SHIPPED, e, 0.0, depth).score == 182.0 && SHIPPED.seeds == 8 && SHIPPED.words == 4
  {
  }

  // ---------------------------------------------------------------- letters are characters

  lemma {:induction false} LettersAdd(a: seq<Byte>, b: seq<Byte>)
    ensures Letters(a + b) == Letters(a) + Letters(b)
    decreases |a|
  {
    if a == [] {
      assert a + b == b;
    } else {
      assert (a + b)[1..] == a[1..] + b;
      LettersAdd(a[1..], b);
    }
  }

  lemma OneLetter(c: nat)
    requires c < 0x11_0000
    ensures Letters(Encode(c)) == 1
  {
    var e := Encode(c);
    assert |e| > 1 ==> Letters(e) == Letters(e[1..]) + 1;
    assert |e| > 1 ==> Letters(e[1..]) == Letters(e[1..][1..]);
    assert |e| > 2 ==> Letters(e[1..][1..]) == Letters(e[1..][1..][1..]);
  }

  /** The length of a word is that of the text it encodes. */
  lemma {:induction false} LettersAreCharacters(text: seq<nat>)
    requires Characters(text)
    ensures Letters(EncodeAll(text)) == |text|
    decreases |text|
  {
    if text != [] {
      LettersAreCharacters(text[1..]);
      OneLetter(text[0]);
      LettersAdd(Encode(text[0]), EncodeAll(text[1..]));
    }
  }
}
