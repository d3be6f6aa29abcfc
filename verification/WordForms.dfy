/** A word list with as many spellings of one key as make its 16-bit count wrap: sixteen letters
    "a", each written small or capital. */
module WordForms {
  import opened Basics
  import opened Wrappers
  import opened Order
  import opened Trie
  import opened Lexicon
  import opened Merge
  import opened Prediction
  import opened Sorting

  const LETTERS := 16

  /** The key byte of an ASCII character: its small letter, or the apostrophe. */
  function KeyByte(b: Byte): Option<Byte> {
    if 65 <= b <= 90 then Some(b + 32) else if 97 <= b <= 122 || b == 39 then Some(b) else None
  }

  /** The key of an ASCII word, if it holds nothing but letters and apostrophes. */
  function KeyOf(word: seq<Byte>): Option<seq<Byte>> {
    if word == [] then Some([]) else
    match (KeyOf(word[..|word| - 1]), KeyByte(word[|word| - 1]))
    case (Some(key), Some(b)) => Some(key + [b])
    case _ => None
  }

  function SmallLetters(n: nat): seq<Byte> {
    if n == 0 then [] else SmallLetters(n - 1) + [97]
  }

  /** `n` letters "a", capital where `e` has a zero bit, the highest bit first. */
  function Cased(e: nat, n: nat): (w: seq<Byte>)
    ensures |w| == n
  {
    if n == 0 then [] else Cased(e / 2, n - 1) + [if e % 2 == 0 then 65 else 97]
  }

  function Power(n: nat): nat {
    if n == 0 then 1 else 2 * Power(n - 1)
  }

  lemma PowerOf16()
    ensures Power(LETTERS) == COUNT_WRAP
  {
    assert Power(4) == 16;
    assert Power(8) == 256;
    assert Power(12) == 4096;
  }

  lemma {:induction false} CasedKey(e: nat, n: nat)
    ensures KeyOf(Cased(e, n)) == Some(SmallLetters(n))
    decreases n
  {
    if n > 0 {
      assert Cased(e, n)[..n - 1] == Cased(e / 2, n - 1);
      CasedKey(e / 2, n - 1);
    }
  }

  lemma LessAppended(a: seq<int>, b: seq<int>, x: int, y: int)
    requires |a| == |b| && (Less(a, b) || (a == b && x < y))
    ensures Less(a + [x], b + [y])
  {
    var (c, d) := (a + [x], b + [y]);
    if a == b {
      assert c[..|a|] == a && d[..|a|] == b;
      CommonIs(c, d, |a|);
    } else {
      var m := Common(a, b);
      Trichotomy(a, b);
      assert m < |a| && c[..m] == a[..m] && d[..m] == b[..m] && c[m] == a[m] && d[m] == b[m];
      CommonIs(c, d, m);
    }
  }

  /** The spellings come in the order of their numbers. */
  lemma {:induction false} CasedInOrder(a: nat, b: nat, n: nat)
    requires a < b < Power(n)
    ensures Less(Cased(a, n), Cased(b, n))
    decreases n
  {
    if n > 0 {
      assert a == a / 2 * 2 + a % 2 && b == b / 2 * 2 + b % 2;
      if a / 2 < b / 2 { CasedInOrder(a / 2, b / 2, n - 1); }
      var (x, y) := (if a % 2 == 0 then 65 else 97, if b % 2 == 0 then 65 else 97);
      LessAppended(Cased(a / 2, n - 1), Cased(b / 2, n - 1), x, y);
    }
  }

  /** One line of a list: spelling `e` of `n` letters. */
  function Line(e: nat, n: nat): Entry {
    Entry(SmallLetters(n), Cased(e, n), 1, false, {0})
  }

  /** The first `m` spellings of `n` letters, as the lines of one list. */
  function Many(m: nat, n: nat): (es: seq<Entry>)
    ensures Spellings(es, n) && |es| == m
  {
    if m == 0 then [] else Many(m - 1, n) + [Line(m - 1, n)]
  }

  predicate Spellings(es: seq<Entry>, n: nat) {
    forall e {:trigger es[e]} | 0 <= e < |es| :: es[e] == Line(e, n)
  }

  lemma {:induction false} AllForms(es: seq<Entry>, n: nat)
    requires Spellings(es, n)
    ensures Forms(es, SmallLetters(n)) == |es|
    decreases |es|
  {
    if es != [] { AllForms(es[..|es| - 1], n); }
  }

  /** A word list can hold them: their keys are those of their words. */
  ghost predicate FromWords(es: seq<Entry>) {
    forall e | e in es :: e.key != [] && KeyOf(e.word) == Some(e.key)
  }

  lemma SpellingsFromWords(es: seq<Entry>, n: nat)
    requires Spellings(es, n) && n > 0
    ensures FromWords(es)
  {
    forall e | e in es ensures e.key != [] && KeyOf(e.word) == Some(e.key) {
      var i :| 0 <= i < |es| && es[i] == e;
      CasedKey(i, n);
    }
  }

  lemma InOrderOfNumber(es: seq<Entry>, n: nat)
    requires Spellings(es, n) && |es| <= Power(n)
    ensures DistinctWords(es) && Sorted(ByKey, es) && SortedByKey(es)
  {
    forall i, j | 0 <= i < j < |es|
      ensures es[i].word != es[j].word && ByKey(es[i], es[j]) && InOrder(es[i], es[j])
    {
      CasedInOrder(i, j, n);
      Trichotomy(es[i].word, es[j].word);
    }
  }

  lemma MergesItself(es: seq<Entry>, n: nat, i: nat)
    requires Spellings(es, n) && i < |es|
    ensures Merges(es, es[i])
  {
    var m := es[i];
    assert m in es && m.frequency == 1 && !m.offensive && m.languages == {0};
    forall r | r in es ensures r.frequency == 1 && r.languages == {0} {
      var j :| 0 <= j < |es| && es[j] == r;
    }
    assert LanguagesOf(es, m.word) == {0};
  }

  /** Merging leaves them as they are: they are different and in order. */
  lemma MergedAlready(es: seq<Entry>, n: nat)
    requires Spellings(es, n) && |es| <= Power(n)
    ensures Consistent(es) && MergedList(es, es)
  {
    InOrderOfNumber(es, n);
    forall i | 0 <= i < |es| ensures Merges(es, es[i]) { MergesItself(es, n, i); }
    forall r | r in es ensures r.key == SmallLetters(n) && Present(es, r.word) {
      var i :| 0 <= i < |es| && es[i] == r;
    }
  }

  /** In any index of 65536 spellings, which are all different forms of one key, the key's node
      shows none of them. */
  lemma ManyFormsLost(t: Trie, es: seq<Entry>, n: nat, i: nat)
    requires Spellings(es, n) && |es| == COUNT_WRAP && IsLexicon(t, es)
    requires i < |t.nodes| && t.keys[i] == SmallLetters(n)
    ensures Forms(es, t.keys[i]) == |es| && t.nodes[i].entryCount == 0
    ensures !ExactRange(es, t.keys[i], t.nodes[i].entryStart, t.nodes[i].entryStart + t.nodes[i].entryCount)
  {
    AllForms(es, n);
    assert RunOk(t.nodes[i], es, t.keys[i]);
    RunExactIff(t.nodes[i], es, t.keys[i]);
  }

  /** So loading them, when there are 65536, keeps every one as an entry and gives their key a
      node without any. */
  method LoadSpellings(raws: seq<Entry>, n: nat)
    returns (es: seq<Entry>, nodes: seq<Node>, parent: seq<int>, ghost keys: seq<seq<Byte>>)
    requires Spellings(raws, n) && |raws| == Power(n) == COUNT_WRAP
    ensures es == raws && IsLexicon(Trie(nodes, parent, keys), es)
    ensures exists i :: 0 <= i < |nodes| && keys[i] == SmallLetters(n) && nodes[i].entryCount == 0
  {
    SpellingsFromWords(raws, n);
    MergedAlready(raws, n);
    es, nodes, parent, keys := Load(raws);
    KeptAsTheyAre(raws, n, es);
    ghost var i := KeyNode(Trie(nodes, parent, keys), es, n);
    ManyFormsLost(Trie(nodes, parent, keys), es, n, i);
  }

  lemma KeptAsTheyAre(raws: seq<Entry>, n: nat, es: seq<Entry>)
    requires Spellings(raws, n) && |raws| <= Power(n) && MergedList(raws, es) && Sorted(ByKey, es)
    ensures es == raws
  {
    MergedAlready(raws, n);
    InOrderOfNumber(raws, n);
    MergeIsCanonical(raws, raws, raws, es);
  }

  lemma KeyNode(t: Trie, es: seq<Entry>, n: nat) returns (i: nat)
    requires Spellings(es, n) && es != [] && IsLexicon(t, es)
    ensures i < |t.nodes| && t.keys[i] == SmallLetters(n)
  {
    assert HasKey(t, es[0].key);
    i :| 0 <= i < |t.keys| && t.keys[i] == es[0].key;
  }

  /** Sixteen letters have that many spellings. */
  method LoadSixteen() returns (es: seq<Entry>, nodes: seq<Node>, parent: seq<int>, ghost keys: seq<seq<Byte>>)
    ensures IsLexicon(Trie(nodes, parent, keys), es) && |es| == COUNT_WRAP && DistinctWords(es) && FromWords(es)
    ensures forall e | e in es :: e.key == SmallLetters(LETTERS)
    ensures exists i :: 0 <= i < |nodes| && keys[i] == SmallLetters(LETTERS) && nodes[i].entryCount == 0
  {
    var n: nat := LETTERS;
    PowerOf16();
    es, nodes, parent, keys := LoadSpellings(Many(Power(n), n), n);
    InOrderOfNumber(es, n);
    SpellingsFromWords(es, n);
  }
}
