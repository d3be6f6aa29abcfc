/** Merging the word lists of several languages into one entry per written form. */
module Merge {
  import opened Order
  import opened Basics
  import opened Lexicon
  import opened Sorting

  // ---------------------------------------------------------------- the two orders

  /** By written form, the more frequent first. */
  predicate ByWord(a: Entry, b: Entry) {
    Less(a.word, b.word) || (a.word == b.word && a.frequency >= b.frequency)
  }

  /** By key, then the more frequent first, then by written form. */
  predicate ByKey(a: Entry, b: Entry) {
    || Less(a.key, b.key)
    || (a.key == b.key && (a.frequency > b.frequency || (a.frequency == b.frequency && LessEq(a.word, b.word))))
  }

  lemma ByWordOrders()
    ensures Orders(ByWord)
  {
    forall a: Entry, b: Entry ensures ByWord(a, b) || ByWord(b, a) { Trichotomy(a.word, b.word); }
    forall a: Entry, b: Entry, c: Entry | ByWord(a, b) && ByWord(b, c) ensures ByWord(a, c) {
      if Less(a.word, b.word) && Less(b.word, c.word) { Transitive(a.word, b.word, c.word); }
    }
  }

  lemma ByKeyOrders()
    ensures Orders(ByKey)
  {
    forall a: Entry, b: Entry ensures ByKey(a, b) || ByKey(b, a) {
      Trichotomy(a.key, b.key);
      Trichotomy(a.word, b.word);
    }
    forall a: Entry, b: Entry, c: Entry | ByKey(a, b) && ByKey(b, c) ensures ByKey(a, c) {
      if Less(a.key, b.key) && Less(b.key, c.key) { Transitive(a.key, b.key, c.key); }
      if Less(a.word, b.word) && Less(b.word, c.word) { Transitive(a.word, b.word, c.word); }
    }
  }

  // ---------------------------------------------------------------- reference: one word at a time

  /** Lines that spell the same word have the same key. */
  ghost predicate Consistent(raws: seq<Entry>) {
    forall r, s | r in raws && s in raws && r.word == s.word :: r.key == s.key
  }

  ghost function LanguagesOf(raws: seq<Entry>, word: seq<Byte>): set<nat> {
    set r, l | r in raws && r.word == word && l in r.languages :: l
  }

  /** `m` stands for all lines of its word: their highest frequency, all their languages,
      offensive only if every one of them is. */
  ghost predicate Merges(raws: seq<Entry>, m: Entry) {
    && (exists r :: r in raws && r.word == m.word && r.key == m.key && r.frequency == m.frequency)
    && (forall r | r in raws && r.word == m.word :: r.frequency <= m.frequency)
    && (m.offensive <==> forall r | r in raws && r.word == m.word :: r.offensive)
    && m.languages == LanguagesOf(raws, m.word)
  }

  ghost predicate DistinctWords(out: seq<Entry>) {
    forall i, j | 0 <= i < j < |out| :: out[i].word != out[j].word
  }

  /** One entry per written form, and nothing else. */
  ghost predicate MergedList(raws: seq<Entry>, out: seq<Entry>) {
    && (forall i | 0 <= i < |out| :: Merges(raws, out[i]))
    && DistinctWords(out)
    && (forall r | r in raws :: Present(out, r.word))
  }

  ghost predicate Present(out: seq<Entry>, word: seq<Byte>) {
    exists i :: 0 <= i < |out| && out[i].word == word
  }

  // ---------------------------------------------------------------- deduplication

  function Folded(kept: Entry, later: Entry): Entry {
    kept.(offensive := kept.offensive && later.offensive, languages := kept.languages + later.languages)
  }

  lemma OtherWordKept(s: seq<Entry>, n: nat, m: Entry)
    requires n < |s| && Merges(s[..n], m) && s[n].word != m.word
    ensures Merges(s[..n + 1], m)
  {
    var init, next := s[..n], s[..n + 1];
    assert next == init + [s[n]];
    var r :| r in init && r.word == m.word && r.key == m.key && r.frequency == m.frequency;
    assert r in next;
    assert LanguagesOf(next, m.word) == LanguagesOf(init, m.word);
  }

  lemma SameWordFolded(s: seq<Entry>, n: nat, m: Entry)
    requires n < |s| && Merges(s[..n], m) && s[n].word == m.word && s[n].frequency <= m.frequency
    ensures Merges(s[..n + 1], Folded(m, s[n]))
  {
    var init, next := s[..n], s[..n + 1];
    assert next == init + [s[n]];
    var r :| r in init && r.word == m.word && r.key == m.key && r.frequency == m.frequency;
    assert r in next;
    assert s[n] in next;
    assert LanguagesOf(next, m.word) == LanguagesOf(init, m.word) + s[n].languages;
  }

  lemma NewWordAlone(s: seq<Entry>, n: nat)
    requires n < |s| && forall r | r in s[..n] :: r.word != s[n].word
    ensures Merges(s[..n + 1], s[n])
  {
    var next := s[..n + 1];
    assert next == s[..n] + [s[n]];
    assert s[n] in next;
    assert LanguagesOf(next, s[n].word) == s[n].languages;
  }

  /** What the pass has made of the first `n` sorted lines. */
  ghost predicate Deduped(s: seq<Entry>, n: nat, out: seq<Entry>)
    requires n <= |s|
  {
    && (forall i {:trigger Merges(s[..n], out[i])} | 0 <= i < |out| :: Merges(s[..n], out[i]))
    && (forall i, j {:trigger Less(out[i].word, out[j].word)} | 0 <= i < j < |out| :: Less(out[i].word, out[j].word))
    && (forall k {:trigger Present(out, s[k].word)} | 0 <= k < n :: Present(out, s[k].word))
    && if n == 0 then out == []
       else out != [] && out[|out| - 1].word == s[n - 1].word && s[n - 1].frequency <= out[|out| - 1].frequency
  }

  /** The words already out come before a new word. */
  lemma WordsBefore(s: seq<Entry>, n: nat, out: seq<Entry>)
    requires Sorted(ByWord, s) && 0 < n < |s| && Deduped(s, n, out) && out[|out| - 1].word != s[n].word
    ensures forall i | 0 <= i < |out| :: Less(out[i].word, s[n].word)
    ensures forall r | r in s[..n] :: r.word != s[n].word
  {
    assert ByWord(s[n - 1], s[n]);
    forall i | 0 <= i < |out| ensures Less(out[i].word, s[n].word) {
      if i < |out| - 1 {
        assert Less(out[i].word, out[|out| - 1].word);
        Transitive(out[i].word, out[|out| - 1].word, s[n].word);
      }
    }
    forall r | r in s[..n] ensures r.word != s[n].word {
      var k :| 0 <= k < n && s[..n][k] == r;
      assert Present(out, s[k].word);
      var i :| 0 <= i < |out| && out[i].word == s[k].word;
      Trichotomy(out[i].word, s[n].word);
    }
  }

  lemma PresentKept(out: seq<Entry>, out': seq<Entry>, word: seq<Byte>)
    requires Present(out, word) && |out| <= |out'| && forall i | 0 <= i < |out| :: out'[i].word == out[i].word
    ensures Present(out', word)
  {
    var i :| 0 <= i < |out| && out[i].word == word;
    assert out'[i].word == word;
  }

  lemma FoldMerges(s: seq<Entry>, n: nat, out: seq<Entry>, i: nat)
    requires Sorted(ByWord, s) && 0 < n < |s| && Deduped(s, n, out) && out[|out| - 1].word == s[n].word && i < |out|
    ensures Merges(s[..n + 1], if i < |out| - 1 then out[i] else Folded(out[i], s[n]))
    ensures s[n].frequency <= out[|out| - 1].frequency
  {
    assert ByWord(s[n - 1], s[n]);
    Trichotomy(s[n - 1].word, s[n].word);
    assert Merges(s[..n], out[i]);
    if i < |out| - 1 {
      assert Less(out[i].word, out[|out| - 1].word);
      Trichotomy(out[i].word, out[|out| - 1].word);
      OtherWordKept(s, n, out[i]);
    } else {
      SameWordFolded(s, n, out[i]);
    }
  }

  /** The same words in the same order. */
  ghost predicate SameWords(out: seq<Entry>, out': seq<Entry>) {
    |out| == |out'| && forall i {:trigger out'[i]} | 0 <= i < |out| :: out'[i].word == out[i].word
  }

  lemma SameWordsOrdered(s: seq<Entry>, n: nat, out: seq<Entry>, out': seq<Entry>)
    requires 0 < n < |s| && Deduped(s, n, out) && SameWords(out, out') && out[|out| - 1].word == s[n].word
    ensures forall i, j {:trigger Less(out'[i].word, out'[j].word)} | 0 <= i < j < |out'| ::
              Less(out'[i].word, out'[j].word)
    ensures forall k {:trigger Present(out', s[k].word)} | 0 <= k < n + 1 :: Present(out', s[k].word)
  {
    forall i, j | 0 <= i < j < |out'| ensures Less(out'[i].word, out'[j].word) {
      assert Less(out[i].word, out[j].word);
    }
    forall k | 0 <= k < n + 1 ensures Present(out', s[k].word) {
      if k < n { PresentKept(out, out', s[k].word); } else { assert out'[|out| - 1].word == s[k].word; }
    }
  }

  lemma FoldLast(s: seq<Entry>, n: nat, out: seq<Entry>)
    requires Sorted(ByWord, s) && 0 < n < |s| && Deduped(s, n, out) && out[|out| - 1].word == s[n].word
    ensures Deduped(s, n + 1, out[|out| - 1 := Folded(out[|out| - 1], s[n])])
  {
    var l := |out| - 1;
    var out' := out[l := Folded(out[l], s[n])];
    SameWordsOrdered(s, n, out, out');
    FoldMerges(s, n, out, l);
    forall i | 0 <= i < |out'| ensures Merges(s[..n + 1], out'[i]) { FoldMerges(s, n, out, i); }
  }

  lemma PushNew(s: seq<Entry>, n: nat, out: seq<Entry>)
    requires Sorted(ByWord, s) && n < |s| && Deduped(s, n, out) && (out == [] || out[|out| - 1].word != s[n].word)
    ensures Deduped(s, n + 1, out + [s[n]])
  {
    if n > 0 { WordsBefore(s, n, out); }
    NewWordAlone(s, n);
    var out' := out + [s[n]];
    forall i | 0 <= i < |out'| ensures Merges(s[..n + 1], out'[i]) {
      if i < |out| {
        assert Less(out[i].word, s[n].word) && Merges(s[..n], out[i]);
        Trichotomy(out[i].word, s[n].word);
        OtherWordKept(s, n, out[i]);
      }
    }
    forall i, j | 0 <= i < j < |out'| ensures Less(out'[i].word, out'[j].word) {
      assert j < |out| ==> Less(out[i].word, out[j].word);
    }
    forall k | 0 <= k < n + 1 ensures Present(out', s[k].word) {
      if k < n { PresentKept(out, out', s[k].word); } else { assert out'[|out|].word == s[k].word; }
    }
  }

  /** Folds every run of lines with the same word into its first line. */
  method Dedup(s: seq<Entry>) returns (out: seq<Entry>)
    requires Sorted(ByWord, s)
    ensures MergedList(s, out)
  {
    out := [];
    for n := 0 to |s|
      invariant Deduped(s, n, out)
    {
      if out != [] && out[|out| - 1].word == s[n].word {
        FoldLast(s, n, out);
        out := out[|out| - 1 := Folded(out[|out| - 1], s[n])];
      } else {
        PushNew(s, n, out);
        out := out + [s[n]];
      }
    }
    assert s[..|s|] == s;
    forall i | 0 <= i < |out| ensures Merges(s, out[i]) { assert Merges(s[..|s|], out[i]); }
    forall i, j | 0 <= i < j < |out| ensures out[i].word != out[j].word {
      assert Less(out[i].word, out[j].word);
      Trichotomy(out[i].word, out[j].word);
    }
    forall r | r in s ensures Present(out, r.word) {
      var k :| 0 <= k < |s| && s[k] == r;
      assert Present(out, s[k].word);
    }
  }

  // ---------------------------------------------------------------- the merge as a whole

  lemma MergesSameLines(a: seq<Entry>, b: seq<Entry>, m: Entry)
    requires SameElements(a, b) && Merges(a, m)
    ensures Merges(b, m)
  {
    assert LanguagesOf(a, m.word) == LanguagesOf(b, m.word);
  }

  lemma MergedSameLines(a: seq<Entry>, b: seq<Entry>, x: seq<Entry>, y: seq<Entry>)
    requires MergedList(a, x) && SameElements(a, b) && multiset(x) == multiset(y)
    ensures MergedList(b, y)
  {
    PermutationKeeps(x, y);
    forall i | 0 <= i < |y| ensures Merges(b, y[i]) {
      assert y[i] in x;
      MergesSameLines(a, b, y[i]);
    }
    forall i, j | 0 <= i < j < |y| ensures y[i].word != y[j].word {
      WordsStayDistinct(x, y, i, j);
    }
    forall r | r in b ensures Present(y, r.word) {
      assert Present(x, r.word);
      var i :| 0 <= i < |x| && x[i].word == r.word;
      assert x[i] in y;
    }
  }

  /** A permutation of a list with distinct words has distinct words. */
  lemma WordsStayDistinct(x: seq<Entry>, y: seq<Entry>, i: nat, j: nat)
    requires multiset(x) == multiset(y) && i < j < |y| && DistinctWords(x)
    ensures y[i].word != y[j].word
  {
    WordsIdentify(x);
    PermutationKeeps(x, y);
    assert y[i] in x && y[j] in x;
  }

  lemma WordsIdentify(a: seq<Entry>)
    requires DistinctWords(a)
    ensures Distinct(a) && forall r, s | r in a && s in a && r.word == s.word :: r == s
  {
    forall r, s | r in a && s in a && r.word == s.word ensures r == s {
      var i :| 0 <= i < |a| && a[i] == r;
      var j :| 0 <= j < |a| && a[j] == s;
    }
  }

  /** All lines of all lists, merged per written form and put in the order the builder
      needs: by key, the most frequent form of a key first. */
  method MergeAll(raws: seq<Entry>) returns (out: seq<Entry>)
    ensures MergedList(raws, out) && Sorted(ByKey, out)
  {
    ByWordOrders();
    SortSorts(ByWord, raws);
    var byWord := Sort(ByWord, raws);
    var merged := Dedup(byWord);
    ByKeyOrders();
    SortSorts(ByKey, merged);
    out := Sort(ByKey, merged);
    PermutationKeeps(byWord, raws);
    MergedSameLines(byWord, raws, merged, out);
  }

  // ---------------------------------------------------------------- order and labels do not matter

  lemma MergesOnce(raws: seq<Entry>, m: Entry, n: Entry)
    requires Consistent(raws) && Merges(raws, m) && Merges(raws, n) && m.word == n.word
    ensures m == n
  {
    var r :| r in raws && r.word == m.word && r.key == m.key && r.frequency == m.frequency;
    var s :| s in raws && s.word == n.word && s.key == n.key && s.frequency == n.frequency;
  }

  lemma MergedHolds(raws: seq<Entry>, out: seq<Entry>, m: Entry)
    requires Consistent(raws) && MergedList(raws, out) && Merges(raws, m)
    ensures m in out
  {
    var r :| r in raws && r.word == m.word && r.key == m.key && r.frequency == m.frequency;
    assert Present(out, r.word);
    var i :| 0 <= i < |out| && out[i].word == r.word;
    MergesOnce(raws, m, out[i]);
  }

  lemma KeyOrderTellsApart(a: seq<Entry>, r: Entry, s: Entry)
    requires DistinctWords(a) && r in a && s in a && ByKey(r, s) && ByKey(s, r)
    ensures r == s
  {
    WordsIdentify(a);
    Trichotomy(r.key, s.key);
    Trichotomy(r.word, s.word);
  }

  /** The order of the lines and lists makes no difference. */
  lemma MergeIsCanonical(raws: seq<Entry>, raws': seq<Entry>, out: seq<Entry>, out': seq<Entry>)
    requires Consistent(raws) && SameElements(raws, raws')
    requires MergedList(raws, out) && Sorted(ByKey, out) && MergedList(raws', out') && Sorted(ByKey, out')
    ensures out == out'
  {
    MergedSameLines(raws', raws, out', out');
    forall m ensures m in out <==> m in out' {
      if m in out { MergedHolds(raws, out', m); }
      if m in out' { MergedHolds(raws, out, m); }
    }
    WordsIdentify(out);
    WordsIdentify(out');
    forall r, s | r in out && s in out && ByKey(r, s) && ByKey(s, r) ensures r == s { KeyOrderTellsApart(out, r, s); }
    SortedOnce(ByKey, out, out');
  }

  function Relabel(f: nat -> nat, e: Entry): Entry {
    e.(languages := set l | l in e.languages :: f(l))
  }

  function RelabelAll(f: nat -> nat, es: seq<Entry>): (r: seq<Entry>)
    ensures |r| == |es| && forall i | 0 <= i < |es| :: r[i] == Relabel(f, es[i])
  {
    seq(|es|, i requires 0 <= i < |es| => Relabel(f, es[i]))
  }

  lemma RelabelLanguages(f: nat -> nat, raws: seq<Entry>, word: seq<Byte>)
    ensures LanguagesOf(RelabelAll(f, raws), word) == set l | l in LanguagesOf(raws, word) :: f(l)
  {
    var raws', image := RelabelAll(f, raws), set l | l in LanguagesOf(raws, word) :: f(l);
    forall l | l in LanguagesOf(raws', word) ensures l in image {
      var r' :| r' in raws' && r'.word == word && l in r'.languages;
      var i :| 0 <= i < |raws| && raws'[i] == r';
      assert raws[i] in raws;
    }
    forall l | l in image ensures l in LanguagesOf(raws', word) {
      var o :| o in LanguagesOf(raws, word) && f(o) == l;
      var r :| r in raws && r.word == word && o in r.languages;
      var i :| 0 <= i < |raws| && raws[i] == r;
      assert raws'[i] in raws' && l in raws'[i].languages;
    }
  }

  lemma RelabelMerges(f: nat -> nat, raws: seq<Entry>, m: Entry)
    requires Merges(raws, m)
    ensures Merges(RelabelAll(f, raws), Relabel(f, m))
  {
    var raws' := RelabelAll(f, raws);
    RelabelLanguages(f, raws, m.word);
    forall r | r in raws ensures Relabel(f, r) in raws' {
      var i :| 0 <= i < |raws| && raws[i] == r;
      assert raws'[i] in raws';
    }
    forall r' | r' in raws' ensures exists r :: r in raws && r' == Relabel(f, r) {
      var i :| 0 <= i < |raws| && raws'[i] == r';
      assert raws[i] in raws;
    }
    var r :| r in raws && r.word == m.word && r.key == m.key && r.frequency == m.frequency;
    assert Relabel(f, r) in raws';
    assert (forall r' | r' in raws' && r'.word == m.word :: r'.offensive) ==>
        forall r | r in raws && r.word == m.word :: Relabel(f, r).offensive;
  }

  lemma RelabelConsistent(f: nat -> nat, raws: seq<Entry>)
    requires Consistent(raws)
    ensures Consistent(RelabelAll(f, raws))
  {
    var lines := RelabelAll(f, raws);
    forall r, s | r in lines && s in lines && r.word == s.word ensures r.key == s.key {
      var i :| 0 <= i < |raws| && lines[i] == r;
      var j :| 0 <= j < |raws| && lines[j] == s;
      assert raws[i] in raws && raws[j] in raws;
    }
  }

  lemma RelabelPresent(f: nat -> nat, raws: seq<Entry>, out: seq<Entry>)
    requires forall r | r in raws :: Present(out, r.word)
    ensures forall r | r in RelabelAll(f, raws) :: Present(RelabelAll(f, out), r.word)
  {
    var lines, mapped := RelabelAll(f, raws), RelabelAll(f, out);
    forall r | r in lines ensures Present(mapped, r.word) {
      var i :| 0 <= i < |raws| && lines[i] == r;
      assert raws[i] in raws;
      PresentKept(out, mapped, raws[i].word);
    }
  }

  lemma RelabelDistinct(f: nat -> nat, out: seq<Entry>)
    requires DistinctWords(out)
    ensures DistinctWords(RelabelAll(f, out))
  {
    var mapped := RelabelAll(f, out);
    forall i, j | 0 <= i < j < |mapped| ensures mapped[i].word != mapped[j].word {
      assert out[i].word != out[j].word;
    }
  }

  lemma RelabelMerged(f: nat -> nat, raws: seq<Entry>, out: seq<Entry>)
    requires MergedList(raws, out)
    ensures MergedList(RelabelAll(f, raws), RelabelAll(f, out))
  {
    var lines, mapped := RelabelAll(f, raws), RelabelAll(f, out);
    forall i | 0 <= i < |mapped| ensures Merges(lines, mapped[i]) { RelabelMerges(f, raws, out[i]); }
    RelabelDistinct(f, out);
    RelabelPresent(f, raws, out);
  }

  /** Relabelling the lists, as permuting them does, relabels the languages of the merged
      entries and changes nothing else: not their order, frequencies or flags. */
  lemma MergeRelabels(f: nat -> nat, raws: seq<Entry>, raws': seq<Entry>, out: seq<Entry>, out': seq<Entry>)
    requires Consistent(raws) && SameElements(RelabelAll(f, raws), raws')
    requires MergedList(raws, out) && Sorted(ByKey, out) && MergedList(raws', out') && Sorted(ByKey, out')
    ensures out' == RelabelAll(f, out)
  {
    RelabelConsistent(f, raws);
    RelabelMerged(f, raws, out);
    var mapped := RelabelAll(f, out);
    assert Sorted(ByKey, mapped) by {
      forall i, j | 0 <= i < j < |mapped| ensures ByKey(mapped[i], mapped[j]) { assert ByKey(out[i], out[j]); }
    }
    MergeIsCanonical(RelabelAll(f, raws), raws', mapped, out');
  }

  /** What the lexicon is built from. */
  /** Forms of one key: the more frequent first, and of equally frequent ones the one that comes first
      byte by byte. */
  ghost predicate FormBefore(a: Entry, b: Entry) {
    a.frequency > b.frequency || (a.frequency == b.frequency && Less(a.word, b.word))
  }

  ghost predicate FormsInOrder(out: seq<Entry>) {
    forall i, j | 0 <= i < j < |out| && out[i].key == out[j].key :: FormBefore(out[i], out[j])
  }

  lemma MergedFitsBuilder(raws: seq<Entry>, out: seq<Entry>)
    requires MergedList(raws, out) && Sorted(ByKey, out) && forall r | r in raws :: r.key != []
    ensures SortedByKey(out) && forall e | 0 <= e < |out| :: out[e].key != []
    ensures FormsInOrder(out)
  {
    forall i, j | 0 <= i < j < |out| ensures InOrder(out[i], out[j]) { assert ByKey(out[i], out[j]); }
    forall e | 0 <= e < |out| ensures out[e].key != [] { assert Merges(raws, out[e]); }
    forall i, j | 0 <= i < j < |out| && out[i].key == out[j].key ensures FormBefore(out[i], out[j]) {
      assert ByKey(out[i], out[j]);
      Trichotomy(out[i].key, out[j].key);
      Trichotomy(out[i].word, out[j].word);
    }
  }
}
