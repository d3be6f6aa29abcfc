/** The pruned walk over the trie.  One buffer of rows is shared by all siblings of a
    depth: a child overwrites the row its elder sibling left behind. */
module Search {
  import opened Basics
  import opened Distance
  import opened Trie

  /** What one search is about: the trie, the query, how far a word may be from what was
      typed, how far a prefix may be to be completed, and how deep to look. */
  datatype Task = Task(trie: Trie, q: Query, maxCost: real, seedCost: real, maxDepth: nat) {
    ghost predicate Valid() {
      trie.Valid() && q.Valid()
    }

    /** Distance of node `j`'s key from the whole typed word. */
    ghost function Cost(j: nat): real
      requires Valid() && j < |trie.nodes|
    {
      Dist(q, trie.keys[j], |q.typed|)
    }

    /** The walk gets to node `j`. */
    ghost predicate Visits(j: nat)
      requires Valid() && j < |trie.nodes|
    {
      |trie.keys[j]| <= maxDepth && Reached(q, trie.keys[j], maxCost)
    }

    ghost predicate Finds(j: nat)
      requires Valid() && j < |trie.nodes|
    {
      Visits(j) && trie.nodes[j].entryCount > 0 && Cost(j) <= maxCost
    }

    ghost predicate Seeds(j: nat)
      requires Valid() && j < |trie.nodes|
    {
      Visits(j) && Cost(j) <= seedCost
    }

    /** The nodes found in an index range, in order, each with its exact distance. */
    ghost function Full(lo: nat, hi: nat): seq<(nat, real)>
      requires Valid() && lo <= hi <= |trie.nodes|
    {
      if lo == hi then [] else Full(lo, hi - 1) + if Finds(hi - 1) then [(hi - 1, Cost(hi - 1))] else []
    }

    ghost function SeedsIn(lo: nat, hi: nat): seq<(nat, real, nat)>
      requires Valid() && lo <= hi <= |trie.nodes|
    {
      if lo == hi then []
      else SeedsIn(lo, hi - 1) + if Seeds(hi - 1) then [(hi - 1, Cost(hi - 1), |trie.keys[hi - 1]|)] else []
    }

    lemma {:induction false} RangesJoin(lo: nat, mid: nat, hi: nat)
      requires Valid() && lo <= mid <= hi <= |trie.nodes|
      ensures Full(lo, hi) == Full(lo, mid) + Full(mid, hi)
      ensures SeedsIn(lo, hi) == SeedsIn(lo, mid) + SeedsIn(mid, hi)
      decreases hi
    {
      if mid < hi { RangesJoin(lo, mid, hi - 1); }
    }

    lemma {:induction false} NothingVisited(lo: nat, hi: nat)
      requires Valid() && lo <= hi <= |trie.nodes|
      requires forall j | lo <= j < hi :: !Visits(j)
      ensures Full(lo, hi) == [] && SeedsIn(lo, hi) == []
      decreases hi
    {
      if lo < hi { NothingVisited(lo, hi - 1); }
    }

    /** An abandoned or too deep child takes its whole subtree with it. */
    lemma SubtreeAbandoned(c: nat)
      requires Valid() && c < |trie.nodes| && trie.keys[c] != []
      requires |trie.keys[c]| > maxDepth || !Alive(q, trie.keys[c], maxCost)
      ensures Full(c, trie.End(c)) == [] && SeedsIn(c, trie.End(c)) == []
    {
      forall j | c <= j < trie.End(c) ensures !Visits(j) {
        trie.BelowContinues(c, j);
        assert trie.keys[j][..|trie.keys[c]|] == trie.keys[c];
        assert Reached(q, trie.keys[j], maxCost) ==> AliveAt(q, trie.keys[j], |trie.keys[c]|, maxCost);
      }
      NothingVisited(c, trie.End(c));
    }

    lemma NothingDeeper(i: nat)
      requires Valid() && i < |trie.nodes| && |trie.keys[i]| >= maxDepth
      ensures Full(i + 1, trie.End(i)) == [] && SeedsIn(i + 1, trie.End(i)) == []
    {
      forall j | i < j < trie.End(i) ensures !Visits(j) {
        trie.BelowContinues(i, j);
      }
      NothingVisited(i + 1, trie.End(i));
    }

    /** A range from its first node on. */
    lemma RangeHead(c: nat, hi: nat)
      requires Valid() && c < hi <= |trie.nodes|
      ensures Full(c, hi) == (if Finds(c) then [(c, Cost(c))] else []) + Full(c + 1, hi)
      ensures SeedsIn(c, hi) == (if Seeds(c) then [(c, Cost(c), |trie.keys[c]|)] else []) + SeedsIn(c + 1, hi)
    {
      RangesJoin(c, c + 1, hi);
      assert Full(c, c) == [] && SeedsIn(c, c) == [];
    }

    /** Everything below `p` up to `done` has been visited and `child` is what comes next. */
    ghost predicate Pending(p: nat, child: nat, done: nat)
      requires Valid() && p < |trie.nodes|
    {
      && p < done <= trie.End(p)
      && if child == NONE then done == trie.End(p) else child == done < |trie.nodes| && trie.parent[child] == p
    }

    /** From one child's subtree to the next child, or to the end of the parent's. */
    lemma NextChild(p: nat, c: nat)
      requires Valid() && p < |trie.nodes| && c != NONE && Pending(p, c, c)
      ensures var end := trie.End(c);
              && c < end && Pending(p, trie.nodes[c].nextSibling, end)
              && Full(p + 1, end) == Full(p + 1, c) + Full(c, end)
              && SeedsIn(p + 1, end) == SeedsIn(p + 1, c) + SeedsIn(c, end)
    {
      trie.SubtreeEnds(c);
      trie.ChildInside(c);
      RangesJoin(p + 1, c, trie.End(c));
    }

    lemma ChildVisited(c: nat)
      requires Valid() && 0 < c < |trie.nodes| && |trie.keys[c]| <= maxDepth
      requires Reached(q, trie.keys[trie.parent[c]], maxCost) && Alive(q, trie.keys[c], maxCost)
      ensures Visits(c)
    {
      var k, up := trie.keys[c], trie.keys[trie.parent[c]];
      assert trie.Linked(c);
      forall d | 1 <= d <= |k| ensures AliveAt(q, k, d, maxCost) {
        if d < |k| {
          assert AliveAt(q, up, d, maxCost);
          assert k[..d] == up[..d];
        } else {
          assert k[..d] == k;
        }
      }
    }

    // -------------------------------------------------------------- brute force

    /** The same list by measuring every node, with no walk and no pruning. */
    ghost function BruteForce(hi: nat): seq<(nat, real)>
      requires Valid() && hi <= |trie.nodes|
    {
      if hi == 0 then []
      else BruteForce(hi - 1) +
           if |trie.keys[hi - 1]| <= maxDepth && trie.nodes[hi - 1].entryCount > 0 && Cost(hi - 1) <= maxCost
           then [(hi - 1, Cost(hi - 1))] else []
    }

    ghost function BruteForceSeeds(hi: nat): seq<(nat, real, nat)>
      requires Valid() && hi <= |trie.nodes|
    {
      if hi == 0 then []
      else BruteForceSeeds(hi - 1) +
           if 0 < |trie.keys[hi - 1]| <= maxDepth && Cost(hi - 1) <= seedCost
           then [(hi - 1, Cost(hi - 1), |trie.keys[hi - 1]|)] else []
    }

    /** When swaps dominate, pruning changes nothing. */
    lemma {:induction false} PruningIsExact(hi: nat)
      requires Valid() && q.costs.SwapDominates() && 1 <= hi <= |trie.nodes|
      requires trie.nodes[ROOT].entryCount == 0
      ensures Full(1, hi) == BruteForce(hi)
      ensures seedCost <= maxCost ==> SeedsIn(1, hi) == BruteForceSeeds(hi)
      decreases hi
    {
      assert BruteForce(0) == [] && BruteForceSeeds(0) == [];
      if hi > 1 {
        PruningIsExact(hi - 1);
        var k := trie.keys[hi - 1];
        SwapDominatesSuffices(q, k, maxCost);
        assert trie.Linked(hi - 1);
        if Cost(hi - 1) <= maxCost { assert Alive(q, k, maxCost); }
      }
    }
  }

  lemma Associate<T>(a: seq<T>, ab: seq<T>, b: seq<T>, c: seq<T>)
    requires ab == a + b
    ensures ab + c == a + (b + c)
  {}

  /** `min` is the least of the first `n` cells of the row for `p`. */
  ghost predicate Least(q: Query, p: seq<Byte>, n: nat, min: real)
    requires q.Valid() && n <= |q.typed| + 1
  {
    (exists i :: 0 <= i < n && Row(q, p)[i] == min) && forall i | 0 <= i < n :: min <= Row(q, p)[i]
  }

  lemma LeastOfOneMore(q: Query, p: seq<Byte>, n: nat, min: real, value: real)
    requires q.Valid() && n <= |q.typed| && value == Row(q, p)[n] && (n > 0 ==> Least(q, p, n, min))
    ensures Least(q, p, n + 1, if n == 0 then value else Min(min, value))
  {
    if n > 0 && min <= value {
      var i :| 0 <= i < n && Row(q, p)[i] == min;
    }
  }

  lemma LeastIsMinimum(q: Query, p: seq<Byte>, min: real)
    requires q.Valid() && Least(q, p, |q.typed| + 1, min)
    ensures min in Row(q, p) && forall v | v in Row(q, p) :: min <= v
  {
    var i :| 0 <= i <= |q.typed| && Row(q, p)[i] == min;
  }

  class Search {
    const task: Task
    const rows: array2<real>
    var path: seq<Byte>
    var full: seq<(nat, real)>
    var seeds: seq<(nat, real, nat)>

    ghost predicate Shaped()
      reads this
    {
      task.Valid() && rows.Length0 == task.maxDepth + 1 && rows.Length1 == |task.q.typed| + 1
    }

    /** Row `d` of the buffer is the row for `p`. */
    ghost predicate Holds(d: nat, p: seq<Byte>)
      requires Shaped() && d <= task.maxDepth
      reads this, rows
    {
      forall i | 0 <= i <= |task.q.typed| :: rows[d, i] == Row(task.q, p)[i]
    }

    /** The walk stands at `key`: the path begins with it and the rows up to its depth
        are its rows. */
    ghost predicate At(key: seq<Byte>)
      reads this, rows
    {
      && Shaped() && |key| <= task.maxDepth && key <= path
      && forall d | 0 <= d <= |key| :: Holds(d, key[..d])
    }

    constructor (task: Task)
      requires task.Valid()
      ensures this.task == task && At([]) && path == [] && full == [] && seeds == []
      ensures fresh(rows)
    {
      this.task := task;
      path, full, seeds := [], [], [];
      rows := new real[task.maxDepth + 1, |task.q.typed| + 1]((_, _) => 0.0);
      new;
      for i := 1 to |task.q.typed| + 1
        modifies rows
        invariant forall j | 0 <= j < i :: rows[0, j] == Row(task.q, [])[j]
      {
        rows[0, i] := rows[0, i - 1] + task.q.ins[i - 1];
      }
    }

    /** The rows above the one for `path` are in the buffer, and its first `n` cells. */
    ghost predicate Filled(depth: nat, n: nat)
      requires depth < task.maxDepth && |path| == depth + 1
      reads this, rows
    {
      && Shaped() && n <= |task.q.typed| + 1
      && Holds(depth, path[..depth]) && (depth >= 1 ==> Holds(depth - 1, path[..depth - 1]))
      && forall j | 0 <= j < n :: rows[depth + 1, j] == Row(task.q, path)[j]
    }

    /** Fills one cell from the cells around it. */
    method Fill(depth: nat, i: nat) returns (value: real)
      requires depth < task.maxDepth && |path| == depth + 1 && i <= |task.q.typed| && Filled(depth, i)
      modifies rows
      ensures Filled(depth, i + 1) && value == Row(task.q, path)[i]
      ensures forall d, j | 0 <= d <= depth && 0 <= j <= |task.q.typed| :: rows[d, j] == old(rows[d, j])
    {
      var q := task.q;
      CellFollows(q, path, i);
      if i == 0 {
        value := rows[depth, 0] + DeleteCost(q.costs, path);
      } else {
        var before := if depth >= 1 && i >= 2 then rows[depth - 1, i - 2] else 0.0;
        value := Cell(q, path, i, rows[depth, i - 1], rows[depth, i], rows[depth + 1, i - 1], before);
      }
      rows[depth + 1, i] := value;
    }

    /** Fills row `depth + 1` for the byte just put on the path. */
    method Step(depth: nat, byte: Byte) returns (min: real, cost: real)
      requires depth < task.maxDepth && |path| == depth + 1 && path[depth] == byte && Filled(depth, 0)
      modifies rows
      ensures Filled(depth, |task.q.typed| + 1)
      ensures forall d, i | 0 <= d <= depth && 0 <= i <= |task.q.typed| :: rows[d, i] == old(rows[d, i])
      ensures cost == Row(task.q, path)[|task.q.typed|] && Least(task.q, path, |task.q.typed| + 1, min)
    {
      ghost var (q, p) := (task.q, path);
      min := Fill(depth, 0);
      LeastOfOneMore(q, p, 0, min, min);
      cost := min;
      for i := 1 to |task.q.typed| + 1
        invariant Filled(depth, i) && Least(q, p, i, min) && cost == Row(q, p)[i - 1]
        invariant forall d, j | 0 <= d <= depth && 0 <= j <= |task.q.typed| :: rows[d, j] == old(rows[d, j])
      {
        cost := Fill(depth, i);
        LeastOfOneMore(q, p, i, min, cost);
        min := Min(min, cost);
      }
    }

    /** Puts `child` on the path in place of whatever its elder siblings left there. */
    method Enter(child: nat, depth: nat) returns (min: real, cost: real)
      requires task.Valid() && 0 < child < |task.trie.nodes| && depth < task.maxDepth
      requires var key := task.trie.keys[task.trie.parent[child]]; |key| == depth && At(key)
      modifies rows, this`path
      ensures At(task.trie.keys[child]) && |task.trie.keys[child]| == depth + 1
      ensures At(task.trie.keys[task.trie.parent[child]])
      ensures cost == task.Cost(child)
      ensures min <= task.maxCost <==> Alive(task.q, task.trie.keys[child], task.maxCost)
    {
      ghost var up, key := task.trie.keys[task.trie.parent[child]], task.trie.keys[child];
      assert task.trie.Linked(child);
      var byte := task.trie.nodes[child].byte;
      path := path[..depth] + [byte];
      assert path == key;
      assert key[..depth] == up[..depth] && (depth >= 1 ==> key[..depth - 1] == up[..depth - 1]);
      assert forall d | 0 <= d <= depth :: Holds(d, up[..d]);
      min, cost := Step(depth, byte);
      assert forall d | 0 <= d <= depth :: Holds(d, up[..d]);
      forall d | 0 <= d <= depth + 1 ensures Holds(d, key[..d]) {
        if d <= depth { assert key[..d] == up[..d]; } else { assert key[..d] == key; }
      }
      LeastIsMinimum(task.q, path, min);
      MinimumTellsAlive(task.q, path, min, task.maxCost);
    }

    /** Records `child` and everything below it. */
    method Visit(child: nat, depth: nat)
      requires task.Valid() && 0 < child < |task.trie.nodes| && depth < task.maxDepth
      requires var key := task.trie.keys[task.trie.parent[child]];
               |key| == depth && At(key) && Reached(task.q, key, task.maxCost)
      modifies rows, this`path, this`full, this`seeds
      ensures At(task.trie.keys[task.trie.parent[child]])
      ensures full == old(full) + task.Full(child, task.trie.End(child))
      ensures seeds == old(seeds) + task.SeedsIn(child, task.trie.End(child))
      decreases |task.trie.nodes| - child, 1
    {
      var min, cost := Enter(child, depth);
      if min <= task.maxCost {
        task.ChildVisited(child);
        task.RangeHead(child, task.trie.End(child));
        if task.trie.nodes[child].entryCount > 0 && cost <= task.maxCost {
          full := full + [(child, cost)];
        }
        if cost <= task.seedCost {
          seeds := seeds + [(child, cost, depth + 1)];
        }
        Descend(child, depth + 1);
        AtParent(child);
      } else {
        task.SubtreeAbandoned(child);
      }
    }

    lemma AtParent(child: nat)
      requires task.Valid() && 0 < child < |task.trie.nodes| && At(task.trie.keys[child])
      ensures At(task.trie.keys[task.trie.parent[child]])
    {
      var up, key := task.trie.keys[task.trie.parent[child]], task.trie.keys[child];
      assert task.trie.Linked(child);
      forall d | 0 <= d <= |up| ensures Holds(d, up[..d]) {
        assert key[..d] == up[..d];
      }
    }

    /** Visits everything below `parent`, whose key has length `depth`. */
    method Descend(parent: nat, depth: nat)
      requires task.Valid() && parent < |task.trie.nodes|
      requires |task.trie.keys[parent]| == depth && At(task.trie.keys[parent]) && task.Visits(parent)
      modifies rows, this`path, this`full, this`seeds
      ensures At(task.trie.keys[parent])
      ensures full == old(full) + task.Full(parent + 1, task.trie.End(parent))
      ensures seeds == old(seeds) + task.SeedsIn(parent + 1, task.trie.End(parent))
      decreases |task.trie.nodes| - parent, 0
    {
      var child := task.trie.nodes[parent].firstChild;
      task.trie.SubtreeEnds(parent);
      if depth >= task.maxDepth {
        task.NothingDeeper(parent);
        return;
      }
      ghost var done, end := parent + 1, task.trie.End(parent);
      while child != NONE
        invariant At(task.trie.keys[parent])
        invariant task.Pending(parent, child, done)
        invariant full == old(full) + task.Full(parent + 1, done)
        invariant seeds == old(seeds) + task.SeedsIn(parent + 1, done)
        decreases end - done
      {
        ghost var f, g := full, seeds;
        Visit(child, depth);
        task.NextChild(parent, child);
        ghost var next := task.trie.End(child);
        Associate(old(full), f, task.Full(parent + 1, child), task.Full(child, next));
        Associate(old(seeds), g, task.SeedsIn(parent + 1, child), task.SeedsIn(child, next));
        done := next;
        child := task.trie.nodes[child].nextSibling;
      }
    }
  }

  /** The whole search: the key nodes within reach and the prefixes to complete, each once,
      in trie order, with its exact distance. */
  method FindAll(task: Task) returns (full: seq<(nat, real)>, seeds: seq<(nat, real, nat)>)
    requires task.Valid() && task.trie.nodes[ROOT].entryCount == 0
    ensures full == task.Full(1, |task.trie.nodes|)
    ensures seeds == task.SeedsIn(1, |task.trie.nodes|)
    ensures task.q.costs.SwapDominates() ==> full == task.BruteForce(|task.trie.nodes|)
    ensures task.q.costs.SwapDominates() && task.seedCost <= task.maxCost ==>
              seeds == task.BruteForceSeeds(|task.trie.nodes|)
  {
    var search := new Search(task);
    search.Descend(ROOT, 0);
    full, seeds := search.full, search.seeds;
    if task.q.costs.SwapDominates() { task.PruningIsExact(|task.trie.nodes|); }
  }
}
