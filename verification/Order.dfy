/** Lexicographic order of byte strings. */
module Order {

  /** Length of the longest common prefix. */
  function Common(a: seq<int>, b: seq<int>): (c: nat)
    ensures c <= |a| && c <= |b| && a[..c] == b[..c]
    ensures c < |a| && c < |b| ==> a[c] != b[c]
  {
    if a == [] || b == [] || a[0] != b[0] then 0
    else
      var c := Common(a[1..], b[1..]);
      assert a[..c + 1] == [a[0]] + a[1..][..c] && b[..c + 1] == [b[0]] + b[1..][..c];
      c + 1
  }

  predicate Less(a: seq<int>, b: seq<int>) {
    var c := Common(a, b);
    c < |b| && (c == |a| || a[c] < b[c])
  }

  predicate LessEq(a: seq<int>, b: seq<int>) {
    a == b || Less(a, b)
  }

  /** The first difference decides, wherever it was found. */
  lemma CommonIs(a: seq<int>, b: seq<int>, c: nat)
    requires c <= |a| && c <= |b| && a[..c] == b[..c]
    requires c == |a| || c == |b| || a[c] != b[c]
    ensures Common(a, b) == c
  {
    var m := Common(a, b);
    forall i | 0 <= i < c ensures a[i] == b[i] { assert a[..c][i] == b[..c][i]; }
    forall i | 0 <= i < m ensures a[i] == b[i] { assert a[..m][i] == b[..m][i]; }
  }

  lemma Trichotomy(a: seq<int>, b: seq<int>)
    ensures a == b || Less(a, b) || Less(b, a)
    ensures !(Less(a, b) && Less(b, a)) && !(a == b && Less(a, b))
  {
    CommonIs(b, a, Common(a, b));
    if a == b { CommonIs(a, b, |a|); }
  }

  lemma Transitive(a: seq<int>, b: seq<int>, c: seq<int>)
    requires Less(a, b) && Less(b, c)
    ensures Less(a, c)
  {
    var m, n := Common(a, b), Common(b, c);
    var k := if m < n then m else n;
    assert a[..k] == a[..m][..k] == b[..m][..k] == b[..k] == b[..n][..k] == c[..n][..k] == c[..k];
    CommonIs(a, c, k);
  }
}
