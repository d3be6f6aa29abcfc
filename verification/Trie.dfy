/** A trie as an array of nodes numbered in preorder, each with its first child and its next
    sibling. Parents, which only the builder keeps, and keys are here to say what the
    numbering means: the nodes below a node are the index range that follows it, and they
    are exactly the nodes whose keys continue its key. */
module Trie {
  import opened Basics

  datatype Node = Node(firstChild: nat, nextSibling: nat, byte: Byte, best: nat,
                       entryCount: nat, entryStart: nat)

  const NONE := 0
  const ROOT := 0

  datatype Trie = Trie(nodes: seq<Node>, parent: seq<int>, keys: seq<seq<Byte>>) {

    /** Numbering: a node follows its parent, and everything between the two hangs below
        that parent. */
    ghost predicate Preorder() {
      && |nodes| == |parent| == |keys| >= 1
      && parent[ROOT] == -1 && keys[ROOT] == []
      && (forall i | 1 <= i < |parent| :: 0 <= parent[i] < i)
      && (forall i | 1 <= i < |nodes| :: Linked(i))
      && (forall c, j | 0 <= c < j < |nodes| :: Nested(c, j))
    }

    ghost predicate Linked(i: nat)
      requires 1 <= i < |nodes| == |parent| == |keys| && 0 <= parent[i] < |keys|
    {
      keys[i] == keys[parent[i]] + [nodes[i].byte]
    }

    ghost predicate Nested(c: nat, j: nat)
      requires c < j < |parent|
    {
      parent[j] < c ==> parent[c] >= parent[j]
    }

    /** Threading: the first child is the next node, the next sibling the next node with
        the same parent, in byte order. */
    ghost predicate Threaded()
      requires |nodes| == |parent|
    {
      forall i | 0 <= i < |nodes| :: FirstChildOk(i) && NextSiblingOk(i)
    }

    ghost predicate FirstChildOk(i: nat)
      requires |nodes| == |parent| && i < |nodes|
    {
      nodes[i].firstChild == if i + 1 < |nodes| && parent[i + 1] == i then i + 1 else NONE
    }

    ghost predicate NextSiblingOk(i: nat)
      requires |nodes| == |parent| && i < |nodes|
    {
      var s := nodes[i].nextSibling;
      if s == NONE then forall j | i < j < |nodes| :: parent[j] != parent[i]
      else
        && i < s < |nodes| && parent[s] == parent[i] && nodes[i].byte < nodes[s].byte
        && forall j | i < j < s :: parent[j] >= i
    }

    ghost predicate Distinct() {
      forall i, j | 0 <= i < j < |keys| :: Differ(i, j)
    }

    ghost predicate Differ(i: nat, j: nat)
      requires i < j < |keys|
    {
      keys[i] != keys[j]
    }

    ghost predicate Valid() {
      Preorder() && Threaded() && Distinct()
    }

    /** A key belongs to one node only. */
    lemma KeysIdentify(i: nat, j: nat)
      requires |nodes| == |keys| && Distinct() && i < |nodes| && j < |nodes|
      ensures keys[i] == keys[j] <==> i == j
    {
      assert i < j ==> Differ(i, j);
      assert j < i ==> Differ(j, i);
    }

    ghost function EndFrom(i: nat, j: nat): (end: nat)
      requires i < j <= |parent|
      ensures j <= end <= |parent|
      ensures forall m | j <= m < end :: parent[m] >= i
      ensures end < |parent| ==> parent[end] < i
      decreases |parent| - j
    {
      if j == |parent| || parent[j] < i then j else EndFrom(i, j + 1)
    }

    /** The subtree of node `i` is the index range from `i` up to `End(i)`. */
    ghost function End(i: nat): nat
      requires i < |parent|
    {
      EndFrom(i, i + 1)
    }

    lemma ChildInside(c: nat)
      requires Preorder() && 0 < c < |nodes|
      ensures End(c) <= End(parent[c])
    {
      forall m | parent[c] < m < c ensures parent[m] >= parent[c] { assert Nested(m, c); }
    }

    /** What the threading says about where subtrees end. */
    lemma SubtreeEnds(i: nat)
      requires Valid() && i < |nodes|
      ensures if nodes[i].firstChild == NONE then End(i) == i + 1
              else nodes[i].firstChild == i + 1 < |nodes| && parent[i + 1] == i && i + 1 < End(i)
      ensures i > 0 && nodes[i].nextSibling != NONE ==>
                var s := nodes[i].nextSibling; End(i) == s < |nodes| && parent[s] == parent[i]
      ensures i > 0 && nodes[i].nextSibling == NONE ==> End(i) == End(parent[i])
    {
      assert FirstChildOk(i) && NextSiblingOk(i);
      if i > 0 {
        ChildInside(i);
        if End(i) < |nodes| { assert Nested(i, End(i)); }
      }
    }

    lemma NoFirstChild(i: nat)
      requires Valid() && i < |nodes| && nodes[i].firstChild == NONE
      ensures forall j | 1 <= j < |nodes| :: parent[j] != i
    {
      assert FirstChildOk(i);
      forall j | i + 1 < j < |nodes| ensures parent[j] != i { assert Nested(i + 1, j); }
    }

    /** Every key below a node continues that node's key. */
    lemma {:induction false} BelowContinues(i: nat, j: nat)
      requires Valid() && i <= j < |nodes| && j < End(i)
      ensures keys[i] <= keys[j] && (i < j ==> |keys[i]| < |keys[j]|)
      decreases j
    {
      if i < j {
        assert Linked(j);
        BelowContinues(i, parent[j]);
      }
    }

    /** And every key that continues a node's key is below that node. */
    lemma {:induction false} ContinuesBelow(i: nat, j: nat)
      requires Valid() && i < |nodes| && j < |nodes| && keys[i] <= keys[j]
      ensures i <= j < End(i)
      decreases j
    {
      if |keys[i]| == |keys[j]| {
        assert keys[i] == keys[j];
        KeysIdentify(i, j);
      } else {
        var p := parent[j];
        assert Linked(j);
        assert keys[i] <= keys[p];
        ContinuesBelow(i, p);
        assert End(i) < j ==> Nested(End(i), j);
      }
    }

    /** On the way from a node down to a longer key there is a child for the next byte. */
    lemma {:induction false} ChildToward(i: nat, j: nat) returns (c: nat)
      requires Valid() && i < |nodes| && j < |nodes| && keys[i] <= keys[j] && |keys[i]| < |keys[j]|
      ensures 0 < c < |nodes| && parent[c] == i && nodes[c].byte == keys[j][|keys[i]|]
      decreases j
    {
      assert Linked(j);
      if |keys[i]| == |keys[j]| - 1 {
        assert keys[i] == keys[parent[j]];
        KeysIdentify(i, parent[j]);
        c := j;
      } else {
        assert keys[i] <= keys[parent[j]];
        c := ChildToward(i, parent[j]);
      }
    }
  }
}
