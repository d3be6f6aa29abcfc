/** Adding one node to a trie while its keys arrive in order. The builder stands on the path
    to the last key, knows the last child of every node on it, and hooks each new node onto
    that path; numbering, threading and keys stay as they should be, because a new byte is
    always greater than its elder sibling's. */
module TrieGrowth {
  import opened Basics
  import opened Trie

  /** Node `i` is still open: every later node hangs below it. */
  ghost predicate Open(t: Trie, i: nat)
    requires |t.nodes| == |t.parent|
  {
    i < |t.nodes| && forall c | i < c < |t.parent| :: t.parent[c] >= i
  }

  ghost predicate OnPath(t: Trie, i: nat, k: seq<Byte>)
    requires t.Valid()
  {
    Open(t, i) && t.keys[i] == k
  }

  /** The last child of the deepest path node: none at all, or an open one. */
  ghost predicate LastChildOk(t: Trie, top: nat, last: nat)
    requires t.Valid() && top < |t.nodes|
  {
    if last == NONE then top == |t.nodes| - 1
    else top < last && Open(t, last) && t.parent[last] == top && t.nodes[last].nextSibling == NONE
  }

  /** The builder stands at key `cur`: `path` leads to it and `last` holds each path
      node's last child. */
  ghost predicate Standing(t: Trie, path: seq<nat>, last: seq<nat>, cur: seq<Byte>)
    requires t.Valid()
  {
    && |path| == |last| == |cur| + 1
    && (forall d | 0 <= d <= |cur| :: OnPath(t, path[d], cur[..d]))
    && (forall d | 0 <= d < |cur| :: last[d] == path[d + 1])
    && LastChildOk(t, path[|cur|], last[|cur|])
  }

  /** Going back up to the first `n` bytes. */
  lemma Retreat(t: Trie, path: seq<nat>, last: seq<nat>, cur: seq<Byte>, n: nat)
    requires t.Valid() && Standing(t, path, last, cur) && n <= |cur|
    ensures Standing(t, path[..n + 1], last[..n + 1], cur[..n])
    ensures n < |cur| ==> last[n] != NONE && last[n] < |t.nodes| && t.nodes[last[n]].byte == cur[n]
  {
    var cur' := cur[..n];
    forall d | 0 <= d <= n ensures OnPath(t, path[..n + 1][d], cur'[..d]) {
      assert OnPath(t, path[d], cur[..d]) && cur'[..d] == cur[..d];
    }
    if n < |cur| {
      var i, l := path[n], path[n + 1];
      assert OnPath(t, i, cur[..n]) && OnPath(t, l, cur[..n + 1]);
      assert cur[..n + 1] == cur[..n] + [cur[n]];
      assert l > 0 && t.Linked(l);
      t.KeysIdentify(t.parent[l], i);
      assert t.NextSiblingOk(l);
    } else {
      assert path[..n + 1] == path && last[..n + 1] == last && cur' == cur;
    }
  }

  ghost function Grown(t: Trie, top: nat, last: nat, b: Byte): (g: Trie)
    requires t.Valid() && top < |t.nodes| && last < |t.nodes|
    ensures |g.nodes| == |g.parent| == |g.keys| == |t.nodes| + 1
  {
    Trie(Hooked(t.nodes, top, last) + [Node(NONE, NONE, b, 0, 0, 0)],
         t.parent + [top], t.keys + [t.keys[top] + [b]])
  }

  /** The new node becomes its parent's first child or its last child's sibling. */
  function Hooked(nodes: seq<Node>, top: nat, last: nat): (h: seq<Node>)
    requires top < |nodes| && last < |nodes|
    ensures |h| == |nodes|
  {
    if last == NONE then nodes[top := nodes[top].(firstChild := |nodes|)]
    else nodes[last := nodes[last].(nextSibling := |nodes|)]
  }

  /** Bytes increase along the children of a node. */
  lemma {:induction false} SiblingBytes(t: Trie, c: nat, l: nat)
    requires t.Valid() && 0 < c <= l < |t.nodes| && t.parent[c] == t.parent[l]
    ensures t.nodes[c].byte <= t.nodes[l].byte
    decreases l - c
  {
    if c < l {
      assert t.NextSiblingOk(c);
      SiblingBytes(t, t.nodes[c].nextSibling, l);
    }
  }

  lemma GrownPreorder(t: Trie, top: nat, last: nat, b: Byte)
    requires t.Valid() && Open(t, top) && last < |t.nodes|
    ensures Grown(t, top, last, b).Preorder()
  {
    var g := Grown(t, top, last, b);
    forall i | 1 <= i < |g.nodes| ensures g.Linked(i) {
      if i < |t.nodes| { assert t.Linked(i); }
    }
    forall c, j | 0 <= c < j < |g.nodes| ensures g.Nested(c, j) {
      if j < |t.nodes| { assert t.Nested(c, j); }
    }
  }

  lemma GrownThreaded(t: Trie, top: nat, last: nat, b: Byte)
    requires t.Valid() && Open(t, top) && last < |t.nodes| && LastChildOk(t, top, last)
    requires last != NONE ==> t.nodes[last].byte < b
    ensures Grown(t, top, last, b).Threaded()
  {
    var g := Grown(t, top, last, b);
    forall i | 0 <= i < |g.nodes| ensures g.FirstChildOk(i) && g.NextSiblingOk(i) {
      if i < |t.nodes| { assert t.FirstChildOk(i) && t.NextSiblingOk(i); }
    }
  }

  /** The bytes of a node's children are below any byte its last child is below. */
  lemma ChildBytes(t: Trie, top: nat, last: nat, b: Byte, i: nat)
    requires t.Valid() && top < |t.nodes| && last < |t.nodes| && LastChildOk(t, top, last)
    requires last != NONE ==> t.nodes[last].byte < b
    requires 0 < i < |t.nodes| && t.parent[i] == top
    ensures t.nodes[i].byte < b
  {
    if last != NONE { SiblingBytes(t, i, last); }
  }

  lemma GrownDistinct(t: Trie, top: nat, last: nat, b: Byte)
    requires t.Valid() && Open(t, top) && last < |t.nodes| && LastChildOk(t, top, last)
    requires last != NONE ==> t.nodes[last].byte < b
    ensures Grown(t, top, last, b).Distinct()
  {
    var g := Grown(t, top, last, b);
    forall i, j | 0 <= i < j < |g.keys| ensures g.Differ(i, j) {
      if j < |t.keys| {
        assert t.Differ(i, j);
      } else if i > 0 {
        assert t.Linked(i);
        var up := t.keys[t.parent[i]];
        assert (up + [t.nodes[i].byte])[..|up|] == up && (t.keys[top] + [b])[..|t.keys[top]|] == t.keys[top];
        if up == t.keys[top] {
          t.KeysIdentify(t.parent[i], top);
          ChildBytes(t, top, last, b, i);
        }
      }
    }
  }

  /** One step down: the trie stays valid and the builder stands one byte deeper. */
  lemma Grow(t: Trie, path: seq<nat>, last: seq<nat>, cur: seq<Byte>, b: Byte)
    requires t.Valid() && Standing(t, path, last, cur)
    requires var l := last[|cur|]; l != NONE ==> t.nodes[l].byte < b
    ensures var g := Grown(t, path[|cur|], last[|cur|], b);
            g.Valid() && Standing(g, path + [|t.nodes|], last[|cur| := |t.nodes|] + [NONE], cur + [b])
  {
    var n, top, l := |t.nodes|, path[|cur|], last[|cur|];
    assert OnPath(t, top, cur[..|cur|]) && cur[..|cur|] == cur;
    GrownPreorder(t, top, l, b);
    GrownThreaded(t, top, l, b);
    GrownDistinct(t, top, l, b);
    var g, path', cur' := Grown(t, top, l, b), path + [n], cur + [b];
    forall d | 0 <= d <= |cur'| ensures OnPath(g, path'[d], cur'[..d]) {
      if d <= |cur| {
        assert OnPath(t, path[d], cur[..d]) && cur'[..d] == cur[..d];
        PathGoesDown(t, path, last, cur, d);
      } else {
        assert cur'[..d] == cur';
      }
    }
  }

  lemma {:induction false} PathGoesDown(t: Trie, path: seq<nat>, last: seq<nat>, cur: seq<Byte>, d: nat)
    requires t.Valid() && Standing(t, path, last, cur) && d <= |cur|
    ensures path[d] <= path[|cur|]
    decreases |cur| - d
  {
    if d < |cur| {
      Retreat(t, path, last, cur, d);
      PathGoesDown(t, path, last, cur, d + 1);
    }
  }
}
