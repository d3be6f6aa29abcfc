/** The weighted edit distance behind the typo search. */
module Distance {
  // `Dist` is the recurrence the search fills in one row per trie depth.  The reference it
  // is measured against is a script of edits that turns the letters of a word into what was
  // typed.  `DistIsCheapestScript` connects the two, and `SearchIsExactIff` says for which
  // costs a row whose every cell is out of reach may be abandoned.

  import opened Basics

  const SYMBOLS := 27
  const APOSTROPHE: Byte := 39

  /** Column of a substitution row: the letters, then everything else. */
  function Symbol(b: Byte): (c: nat)
    ensures c < SYMBOLS
  {
    if 97 <= b <= 122 then b - 97 else 26
  }

  /** The character of a column. */
  function SymbolByte(column: nat): Byte
    requires column < SYMBOLS
  {
    if column < 26 then 97 + column else APOSTROPHE
  }

  /** There is a column for each of the 26 letters and one for the apostrophe. */
  lemma SymbolsAreColumns(b: Byte, column: nat)
    ensures SYMBOLS == 27 && (97 <= b <= 122 || b == 39 ==> SymbolByte(Symbol(b)) == b)
    ensures column < 27 ==> Symbol(SymbolByte(column)) == column
    ensures !(97 <= b <= 122) ==> Symbol(b) == Symbol(39)
  {
  }

  datatype Costs = Costs(delete: real, deleteRepeat: real, deleteApostrophe: real, transpose: real) {
    predicate NonNegative() {
      delete >= 0.0 && deleteRepeat >= 0.0 && deleteApostrophe >= 0.0 && transpose >= 0.0
    }

    /** No word letter costs more to skip than a swap of two letters. */
    predicate SwapDominates() {
      transpose >= delete && transpose >= deleteRepeat && transpose >= deleteApostrophe
    }
  }

  /** One typed word: its key bytes, what each typed byte costs to reread as another
      symbol, and what it costs to drop. */
  datatype Query = Query(costs: Costs, typed: seq<Byte>, sub: seq<seq<real>>, ins: seq<real>) {
    ghost predicate Valid() {
      && costs.NonNegative()
      && |sub| == |typed| && |ins| == |typed|
      && (forall i | 0 <= i < |sub| :: |sub[i]| == SYMBOLS && sub[i][Symbol(typed[i])] == 0.0)
      && (forall i, c | 0 <= i < |sub| && 0 <= c < |sub[i]| :: sub[i][c] >= 0.0)
      && (forall i | 0 <= i < |ins| :: ins[i] >= 0.0)
    }
  }

  /** Cost of not having typed the last byte of `p`. */
  function DeleteCost(t: Costs, p: seq<Byte>): real
    requires |p| > 0
  {
    if p[|p| - 1] == APOSTROPHE then t.deleteApostrophe
    else if |p| >= 2 && p[|p| - 2] == p[|p| - 1] then t.deleteRepeat
    else t.delete
  }

  /** The last two bytes of `p` were typed as bytes `i - 2` and `i - 1`, swapped. */
  predicate Swapped(typed: seq<Byte>, p: seq<Byte>, i: nat)
    requires i <= |typed|
  {
    && |p| >= 2 && i >= 2
    && typed[i - 1] == p[|p| - 2] && typed[i - 2] == p[|p| - 1]
    && p[|p| - 2] != p[|p| - 1]
  }

  /** Cost of having typed the first `i` bytes when `p` was meant. */
  ghost function Dist(q: Query, p: seq<Byte>, i: nat): (d: real)
    requires q.Valid() && i <= |q.typed|
    ensures d >= 0.0
    decreases |p|, i
  {
    if |p| == 0 then
      if i == 0 then 0.0 else Dist(q, p, i - 1) + q.ins[i - 1]
    else
      var up := p[..|p| - 1];
      var delete := DeleteCost(q.costs, p);
      if i == 0 then Dist(q, up, 0) + delete
      else
        var plain := Min(Min(Dist(q, up, i - 1) + q.sub[i - 1][Symbol(p[|p| - 1])],
                             Dist(q, up, i) + delete),
                         Dist(q, p, i - 1) + q.ins[i - 1]);
        if Swapped(q.typed, p, i)
        then Min(plain, Dist(q, p[..|p| - 2], i - 2) + q.costs.transpose)
        else plain
  }

  /** The whole row for `p`. */
  ghost function Row(q: Query, p: seq<Byte>): (r: seq<real>)
    requires q.Valid()
    ensures |r| == |q.typed| + 1
  {
    seq(|q.typed| + 1, i requires 0 <= i <= |q.typed| => Dist(q, p, i))
  }

  /** How one cell follows from the cells left of it, above it, and two rows above. */
  function Cell(q: Query, p: seq<Byte>, i: nat, diagonal: real, above: real, left: real, swapped: real): real
    requires 0 < i <= |q.typed| == |q.sub| == |q.ins| && |p| > 0 && |q.sub[i - 1]| == SYMBOLS
  {
    var plain := Min(Min(diagonal + q.sub[i - 1][Symbol(p[|p| - 1])], above + DeleteCost(q.costs, p)),
                     left + q.ins[i - 1]);
    if Swapped(q.typed, p, i) then Min(plain, swapped + q.costs.transpose) else plain
  }

  /** Every cell of a row follows from the two rows above it. */
  lemma CellFollows(q: Query, p: seq<Byte>, i: nat)
    requires q.Valid() && |p| > 0 && i <= |q.typed|
    ensures var (r, up) := (Row(q, p), Row(q, p[..|p| - 1]));
            r[i] == if i == 0 then up[0] + DeleteCost(q.costs, p)
                    else Cell(q, p, i, up[i - 1], up[i], r[i - 1],
                              if |p| >= 2 && i >= 2 then Row(q, p[..|p| - 2])[i - 2] else 0.0)
  {
  }

  // ---------------------------------------------------------------- reference: edit scripts

  datatype Edit = Substitute | Delete | Insert | Transpose

  /** `s` turns the word letters `p` into the first `i` typed bytes. */
  predicate Rewrites(q: Query, p: seq<Byte>, i: nat, s: seq<Edit>)
    requires i <= |q.typed|
    decreases |s|
  {
    if s == [] then p == [] && i == 0
    else
      var t := s[..|s| - 1];
      match s[|s| - 1]
      case Substitute => p != [] && i > 0 && Rewrites(q, p[..|p| - 1], i - 1, t)
      case Delete => p != [] && Rewrites(q, p[..|p| - 1], i, t)
      case Insert => i > 0 && Rewrites(q, p, i - 1, t)
      case Transpose => Swapped(q.typed, p, i) && Rewrites(q, p[..|p| - 2], i - 2, t)
  }

  ghost function ScriptCost(q: Query, p: seq<Byte>, i: nat, s: seq<Edit>): real
    requires q.Valid() && i <= |q.typed| && Rewrites(q, p, i, s)
    decreases |s|
  {
    if s == [] then 0.0
    else
      var t := s[..|s| - 1];
      match s[|s| - 1]
      case Substitute => ScriptCost(q, p[..|p| - 1], i - 1, t) + q.sub[i - 1][Symbol(p[|p| - 1])]
      case Delete => ScriptCost(q, p[..|p| - 1], i, t) + DeleteCost(q.costs, p)
      case Insert => ScriptCost(q, p, i - 1, t) + q.ins[i - 1]
      case Transpose => ScriptCost(q, p[..|p| - 2], i - 2, t) + q.costs.transpose
  }

  lemma {:induction false} DistBelowScript(q: Query, p: seq<Byte>, i: nat, s: seq<Edit>)
    requires q.Valid() && i <= |q.typed| && Rewrites(q, p, i, s)
    ensures Dist(q, p, i) <= ScriptCost(q, p, i, s)
    decreases |s|
  {
    if s != [] {
      var t := s[..|s| - 1];
      match s[|s| - 1]
      case Substitute => DistBelowScript(q, p[..|p| - 1], i - 1, t);
      case Delete => DistBelowScript(q, p[..|p| - 1], i, t);
      case Insert => DistBelowScript(q, p, i - 1, t);
      case Transpose => DistBelowScript(q, p[..|p| - 2], i - 2, t);
    }
  }

  /** The cell for `i > 0` under a nonempty word attains one of its four alternatives. */
  lemma DistAttained(q: Query, p: seq<Byte>, i: nat) returns (last: Edit)
    requires q.Valid() && 0 < i <= |q.typed| && |p| > 0
    ensures match last
            case Substitute => Dist(q, p, i) == Dist(q, p[..|p| - 1], i - 1) + q.sub[i - 1][Symbol(p[|p| - 1])]
            case Delete => Dist(q, p, i) == Dist(q, p[..|p| - 1], i) + DeleteCost(q.costs, p)
            case Insert => Dist(q, p, i) == Dist(q, p, i - 1) + q.ins[i - 1]
            case Transpose =>
              Swapped(q.typed, p, i) && Dist(q, p, i) == Dist(q, p[..|p| - 2], i - 2) + q.costs.transpose
  {
    if Dist(q, p, i) == Dist(q, p, i - 1) + q.ins[i - 1] {
      last := Insert;
    } else if Dist(q, p, i) == Dist(q, p[..|p| - 1], i) + DeleteCost(q.costs, p) {
      last := Delete;
    } else if Dist(q, p, i) == Dist(q, p[..|p| - 1], i - 1) + q.sub[i - 1][Symbol(p[|p| - 1])] {
      last := Substitute;
    } else {
      last := Transpose;
    }
  }

  /** Taking `last` back leaves `p'` and `i'` of `p` and `i`. */
  ghost predicate Undoes(q: Query, last: Edit, p: seq<Byte>, i: nat, p': seq<Byte>, i': nat)
    requires i <= |q.typed|
  {
    match last
    case Substitute => p != [] && i > 0 && p' == p[..|p| - 1] && i' == i - 1
    case Delete => p != [] && p' == p[..|p| - 1] && i' == i
    case Insert => i > 0 && p' == p && i' == i - 1
    case Transpose => Swapped(q.typed, p, i) && p' == p[..|p| - 2] && i' == i - 2
  }

  /** What one more edit at the end of a script means and costs. */
  lemma ScriptEnds(q: Query, p: seq<Byte>, i: nat, t: seq<Edit>, last: Edit, p': seq<Byte>, i': nat)
    requires q.Valid() && i' <= i <= |q.typed| && Rewrites(q, p', i', t) && Undoes(q, last, p, i, p', i')
    ensures Rewrites(q, p, i, t + [last])
    ensures ScriptCost(q, p, i, t + [last]) - ScriptCost(q, p', i', t)
            == match last
               case Substitute => q.sub[i - 1][Symbol(p[|p| - 1])]
               case Delete => DeleteCost(q.costs, p)
               case Insert => q.ins[i - 1]
               case Transpose => q.costs.transpose
  {
    var s := t + [last];
    assert s[..|s| - 1] == t && s[|s| - 1] == last;
  }

  /** A script of cost `Dist`, built back from the cells that attain the minimum. */
  lemma {:induction false} CheapestScript(q: Query, p: seq<Byte>, i: nat) returns (s: seq<Edit>)
    requires q.Valid() && i <= |q.typed|
    ensures Rewrites(q, p, i, s) && ScriptCost(q, p, i, s) == Dist(q, p, i)
    decreases |p|, i
  {
    if |p| == 0 && i == 0 { return []; }
    var last := if |p| == 0 then Insert else Delete;
    if |p| > 0 && i > 0 { last := DistAttained(q, p, i); }
    var p' := match last case Insert => p case Transpose => p[..|p| - 2] case _ => p[..|p| - 1];
    var i' := match last case Delete => i case Transpose => i - 2 case _ => i - 1;
    var t := CheapestScript(q, p', i');
    ScriptEnds(q, p, i, t, last, p', i');
    s := t + [last];
  }

  /** `Dist` is the cost of the cheapest edit script, no more and no less. */
  lemma DistIsCheapestScript(q: Query, p: seq<Byte>, i: nat)
    requires q.Valid() && i <= |q.typed|
    ensures forall s :: Rewrites(q, p, i, s) ==> Dist(q, p, i) <= ScriptCost(q, p, i, s)
    ensures exists s :: Rewrites(q, p, i, s) && ScriptCost(q, p, i, s) == Dist(q, p, i)
  {
    forall s | Rewrites(q, p, i, s) ensures Dist(q, p, i) <= ScriptCost(q, p, i, s) {
      DistBelowScript(q, p, i, s);
    }
    var s := CheapestScript(q, p, i);
  }

  // ---------------------------------------------------------------- abandoning a row

  /** Some cell of the row for `p` is within reach. */
  ghost predicate Alive(q: Query, p: seq<Byte>, reach: real)
    requires q.Valid()
  {
    exists i :: 0 <= i <= |q.typed| && Dist(q, p, i) <= reach
  }

  lemma MinimumTellsAlive(q: Query, p: seq<Byte>, min: real, reach: real)
    requires q.Valid() && min in Row(q, p) && forall v | v in Row(q, p) :: min <= v
    ensures min <= reach <==> Alive(q, p, reach)
  {
    var r := Row(q, p);
    if min <= reach {
      var i :| 0 <= i < |r| && r[i] == min;
    }
    if Alive(q, p, reach) {
      var i :| 0 <= i <= |q.typed| && Dist(q, p, i) <= reach;
      assert r[i] in r;
    }
  }

  /** Every row on the way to `k` is within reach, so a search that abandons the
      others still arrives at `k`. */
  ghost predicate Reached(q: Query, k: seq<Byte>, reach: real)
    requires q.Valid()
  {
    forall d | 1 <= d <= |k| :: AliveAt(q, k, d, reach)
  }

  ghost predicate AliveAt(q: Query, k: seq<Byte>, d: nat, reach: real)
    requires q.Valid() && d <= |k|
  {
    Alive(q, k[..d], reach)
  }

  /** Skipping the swapped letter costs no more than the swap did. */
  lemma SkipInsteadOfSwap(q: Query, p: seq<Byte>, i: nat, reach: real)
    requires q.Valid() && q.costs.SwapDominates() && |p| > 0 && 2 <= i <= |q.typed|
    requires Swapped(q.typed, p, i) && Dist(q, p[..|p| - 2], i - 2) + q.costs.transpose <= reach
    ensures Dist(q, p[..|p| - 1], i - 2) <= reach
  {
    var (up, before) := (p[..|p| - 1], p[..|p| - 2]);
    assert up[..|up| - 1] == before;
    assert Dist(q, up, i - 2) <= Dist(q, before, i - 2) + DeleteCost(q.costs, up);
  }

  /** One more letter never brings a row back within reach, if swaps dominate. */
  lemma {:induction false} RowsOnlyGrow(q: Query, p: seq<Byte>, i: nat, reach: real)
    requires q.Valid() && q.costs.SwapDominates()
    requires |p| > 0 && i <= |q.typed| && Dist(q, p, i) <= reach
    ensures Alive(q, p[..|p| - 1], reach)
    decreases i
  {
    var up := p[..|p| - 1];
    if i == 0 {
      assert Dist(q, up, 0) <= reach;
    } else {
      var last := DistAttained(q, p, i);
      match last
      case Substitute => assert Dist(q, up, i - 1) <= reach;
      case Delete => assert Dist(q, up, i) <= reach;
      case Insert => RowsOnlyGrow(q, p, i - 1, reach);
      case Transpose => SkipInsteadOfSwap(q, p, i, reach);
    }
  }

  lemma {:induction false} SwapDominatesSuffices(q: Query, k: seq<Byte>, reach: real)
    requires q.Valid() && q.costs.SwapDominates()
    ensures Reached(q, k, reach) <==> (k == [] || Alive(q, k, reach))
    decreases |k|
  {
    if k != [] {
      assert k[..|k|] == k;
      var up := k[..|k| - 1];
      SwapDominatesSuffices(q, up, reach);
      forall d | 1 <= d < |k| ensures AliveAt(q, k, d, reach) == AliveAt(q, up, d, reach) {
        assert up[..d] == k[..d];
      }
      assert AliveAt(q, k, |k|, reach) == Alive(q, k, reach);
      if Alive(q, k, reach) {
        var i :| 0 <= i <= |q.typed| && Dist(q, k, i) <= reach;
        RowsOnlyGrow(q, k, i, reach);
      }
    }
  }

  /** Abandoning rows out of reach loses no word, whatever the word, what was typed,
      how it may be reread, and the reach. */
  ghost predicate LosesNoWord(t: Costs) {
    forall q: Query, k: seq<Byte>, reach: real ::
      q.Valid() && q.costs == t && Dist(q, k, |q.typed|) <= reach ==> Reached(q, k, reach)
  }

  /** A two-byte query on which nothing is cheap but what `t` makes cheap. */
  ghost function TwoKeys(t: Costs, x: Byte, y: Byte, far: real): (q: Query)
    requires t.NonNegative() && far >= 0.0 && Symbol(x) != Symbol(y)
    ensures q.Valid() && q.costs == t && q.typed == [x, y]
  {
    Query(t, [x, y],
          [seq(SYMBOLS, c => if c == Symbol(x) then 0.0 else far),
           seq(SYMBOLS, c => if c == Symbol(y) then 0.0 else far)],
          [far, far])
  }

  /** A word that only repeats `x` is far from anything typed that starts otherwise. */
  lemma {:induction false} FarWithout(q: Query, x: Byte, far: real, p: seq<Byte>, i: nat)
    requires q.Valid() && |q.typed| == 2 && q.typed[0] != x
    requires q.sub[0][Symbol(x)] >= far && q.ins[0] >= far
    requires (forall j | 0 <= j < |p| :: p[j] == x) && 1 <= i <= 2
    ensures Dist(q, p, i) >= far
    decreases |p|, i
  {
    if i == 2 { FarWithout(q, x, far, p, 1); }
    if |p| > 0 {
      var up := p[..|p| - 1];
      assert p[|p| - 1] == x;
      FarWithout(q, x, far, up, 1);
      FarWithout(q, x, far, up, i);
      var last := DistAttained(q, p, i);
    }
  }

  lemma DistAtZero(q: Query, p: seq<Byte>, b: Byte)
    requires q.Valid()
    ensures Dist(q, [], 0) == 0.0
    ensures Dist(q, p + [b], 0) == Dist(q, p, 0) + DeleteCost(q.costs, p + [b])
  {
    assert (p + [b])[..|p|] == p;
  }

  lemma DistAcrossSwap(q: Query, p: seq<Byte>, x: Byte, y: Byte, i: nat)
    requires q.Valid() && 2 <= i <= |q.typed| && Swapped(q.typed, p + [x, y], i)
    ensures Dist(q, p + [x, y], i) <= Dist(q, p, i - 2) + q.costs.transpose
  {
    assert (p + [x, y])[..|p|] == p;
  }

  /** What only repeats `x` is out of reach when `x` is neither typed first nor cheap to skip. */
  lemma RepeatsAreDead(q: Query, p: seq<Byte>, x: Byte, reach: real)
    requires q.Valid() && |q.typed| == 2 && q.typed[0] != x && q.sub[0][Symbol(x)] > reach && q.ins[0] > reach
    requires (forall j | 0 <= j < |p| :: p[j] == x) && Dist(q, p, 0) > reach
    ensures !Alive(q, p, reach)
  {
    var far := Min(q.sub[0][Symbol(x)], q.ins[0]);
    forall i | 0 <= i <= 2 ensures Dist(q, p, i) > reach {
      if i > 0 { FarWithout(q, x, far, p, i); }
    }
  }

  /** The word `lead` + "xy", typed as "yx": the swap is within reach, the row before it
      is not. */
  lemma NotExactBehind(q: Query, lead: seq<Byte>, x: Byte, y: Byte, reach: real)
    requires q.Valid() && q.typed == [y, x] && x != y
    requires q.sub[0][Symbol(x)] > reach && q.ins[0] > reach
    requires forall j | 0 <= j < |lead| :: lead[j] == x
    requires Dist(q, lead, 0) + q.costs.transpose <= reach < Dist(q, lead, 0) + DeleteCost(q.costs, lead + [x])
    ensures !LosesNoWord(q.costs)
  {
    DistAtZero(q, lead, x);
    DistAcrossSwap(q, lead, x, y, 2);
    RepeatsAreDead(q, lead + [x], x, reach);
    var k := lead + [x, y];
    assert k[..|k| - 1] == lead + [x];
    assert !AliveAt(q, k, |k| - 1, reach);
    assert !Reached(q, k, reach);
  }

  lemma DearSkipLosesWords(t: Costs)
    requires t.NonNegative() && !t.SwapDominates()
    ensures !LosesNoWord(t)
  {
    if t.transpose < t.delete || t.transpose < t.deleteApostrophe {
      var x := if t.transpose < t.delete then 97 else APOSTROPHE;
      var q := TwoKeys(t, 98, x, t.transpose + 1.0);
      assert [] + [x] == [x];
      NotExactBehind(q, [], x, 98, t.transpose);
    } else {
      var reach := t.delete + t.transpose;
      var q := TwoKeys(t, 98, 97, reach + 1.0);
      DistAtZero(q, [], 97);
      assert [] + [97] == [97];
      NotExactBehind(q, [97], 97, 98, reach);
    }
  }

  /** The pruned search is exact for every lexicon, typed word, touch and radius exactly
      when a swap costs at least as much as skipping any letter. */
  lemma SearchIsExactIff(t: Costs)
    requires t.NonNegative()
    ensures LosesNoWord(t) <==> t.SwapDominates()
  {
    if t.SwapDominates() {
      forall q: Query, k: seq<Byte>, reach: real |
        q.Valid() && q.costs == t && Dist(q, k, |q.typed|) <= reach
        ensures Reached(q, k, reach)
      {
        SwapDominatesSuffices(q, k, reach);
      }
    } else {
      DearSkipLosesWords(t);
    }
  }

  // ---------------------------------------------------------------- the shipped tuning

  const DEFAULT_COSTS := Costs(0.42, 0.6, 0.1, 0.45)
  const DEFAULT_INSERT := 1.1
  const DEFAULT_SUB_MAX := 1.0
  const DEFAULT_REACH_SHORT := 1.0

  /** "ba" typed on the phone layout, where 'b' is far from 'a' and no key types an
      apostrophe, so both cost the most a substitution can. */
  ghost predicate TypedBa(q: Query) {
    && q.Valid() && q.costs == DEFAULT_COSTS && q.typed == [98, 97]
    && q.ins == [DEFAULT_INSERT, DEFAULT_INSERT]
    && q.sub[0][0] == DEFAULT_SUB_MAX && q.sub[0][26] == DEFAULT_SUB_MAX
    && q.sub[1][26] == DEFAULT_SUB_MAX
  }

  /** There is such a query: what is not said to be free costs the most. */
  ghost function BaTyped(): (q: Query)
    ensures TypedBa(q)
  {
    Query(DEFAULT_COSTS, [98, 97],
          [seq(SYMBOLS, c => if c == 1 then 0.0 else DEFAULT_SUB_MAX),
           seq(SYMBOLS, c => if c == 0 then 0.0 else DEFAULT_SUB_MAX)],
          [DEFAULT_INSERT, DEFAULT_INSERT])
  }

  /** One row from the row above it, for a word without a swap in sight. */
  lemma NextRow(q: Query, p: seq<Byte>, b: Byte)
    requires TypedBa(q) && (b == 97 || b == APOSTROPHE)
    requires forall i | 0 <= i <= 2 :: !Swapped(q.typed, p + [b], i)
    ensures var d := DeleteCost(q.costs, p + [b]); var s := if b == 97 then 0.0 else 1.0;
            var (d0, d1, d2) := (Dist(q, p, 0), Dist(q, p, 1), Dist(q, p, 2));
            && Dist(q, p + [b], 0) == d0 + d
            && Dist(q, p + [b], 1) == Min(Min(d0 + 1.0, d1 + d), d0 + d + 1.1)
            && Dist(q, p + [b], 2) == Min(Min(d1 + s, d2 + d), Dist(q, p + [b], 1) + 1.1)
  {
    assert (p + [b])[..|p|] == p;
  }

  ghost predicate RowIs(q: Query, p: seq<Byte>, d0: real, d1: real, d2: real)
    requires TypedBa(q)
  {
    Dist(q, p, 0) == d0 && Dist(q, p, 1) == d1 && Dist(q, p, 2) == d2
  }

  lemma RowApostrophe(q: Query)
    requires TypedBa(q)
    ensures RowIs(q, [APOSTROPHE], 0.1, 1.0, 2.1)
  {
    assert Dist(q, [], 0) == 0.0 && Dist(q, [], 1) == 1.1;
    assert Dist(q, [], 2) == 2.2;
    NextRow(q, [], APOSTROPHE);
    assert [] + [APOSTROPHE] == [APOSTROPHE];
  }

  lemma RowApostropheA(q: Query)
    requires TypedBa(q)
    ensures RowIs(q, [APOSTROPHE, 97], 0.52, 1.1, 1.0)
    ensures RowIs(q, [APOSTROPHE, 97, 97], 1.12, 1.52, 1.1)
  {
    RowApostrophe(q);
    NextRow(q, [APOSTROPHE], 97);
    assert [APOSTROPHE] + [97] == [APOSTROPHE, 97];
    NextRow(q, [APOSTROPHE, 97], 97);
    assert [APOSTROPHE, 97] + [97] == [APOSTROPHE, 97, 97];
  }

  /** Under the shipped tuning a swap (0.45) is cheaper than skipping a doubled letter
      (0.6), and the word "'aab", 0.97 away from "ba" and so within the reach of 1.0, is
      abandoned at "'aa". */
  lemma DefaultTuningLosesWord(q: Query)
    requires TypedBa(q)
    ensures !DEFAULT_COSTS.SwapDominates()
    ensures Dist(q, [39, 97, 97, 98], 2) <= DEFAULT_REACH_SHORT
    ensures !Alive(q, [39, 97, 97], DEFAULT_REACH_SHORT)
  {
    RowApostropheA(q);
    DistAcrossSwap(q, [APOSTROPHE, 97], 97, 98, 2);
    assert [APOSTROPHE, 97] + [97, 98] == [APOSTROPHE, 97, 97, 98];
  }
}
