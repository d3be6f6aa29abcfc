/** The set of connected outputs and its hotplug transactions. */
module Topology {
  import opened Wrappers
  import opened Projection
  import opened Text
  import Order

  const EPOCH_WRAP := 0x1_0000_0000_0000_0000
  const I32_MAX := 0x7fff_ffff

  datatype Output = Output(id: nat, name: string, x: I32, y: I32, mode: PixelSize, scale: U32, refresh: U32,
                           transform: Transform)

  function Rect(o: Output): LogicalRect
    requires o.scale > 0
  {
    var size := Oriented(o.mode, o.transform);
    var scale := o.scale as real / SCALE_BASE as real;
    LogicalRect(o.x as real, o.y as real, size.width as real / scale, size.height as real / scale)
  }

  // ---------------------------------------------------------------- acceptable sets of outputs

  predicate InRange(r: LogicalRect) {
    r.Right() <= I32_MAX as real && r.Bottom() <= I32_MAX as real
  }

  predicate Overlap(a: LogicalRect, b: LogicalRect) {
    a.x < b.Right() && b.x < a.Right() && a.y < b.Bottom() && b.y < a.Bottom()
  }

  predicate Sound(o: Output) {
    !Blank(o.name) && o.mode.width > 0 && o.mode.height > 0 && o.scale > 0 && o.refresh > 0 && InRange(Rect(o))
  }

  /** Two outputs that can be connected together. */
  predicate Compatible(a: Output, b: Output)
    requires a.scale > 0 && b.scale > 0
  {
    a.name != b.name && !Overlap(Rect(a), Rect(b))
  }

  predicate AllSound(outputs: seq<Output>) {
    forall i {:trigger outputs[i]} | 0 <= i < |outputs| :: Sound(outputs[i])
  }

  predicate Acceptable(outputs: seq<Output>) {
    AllSound(outputs) && forall i, j | 0 <= i < j < |outputs| :: Compatible(outputs[i], outputs[j])
  }

  // ---------------------------------------------------------------- what that means

  /** How wide and high an output is on the desktop: its mode at 120 to the scale, lying on its
      side after a quarter turn. */
  ghost function Wide(o: Output): real
    requires o.scale > 0
  {
    (if o.transform in {Rotate90, Rotate270, Flipped90, Flipped270} then o.mode.height else o.mode.width) as real
    * 120.0 / o.scale as real
  }

  ghost function High(o: Output): real
    requires o.scale > 0
  {
    (if o.transform in {Rotate90, Rotate270, Flipped90, Flipped270} then o.mode.width else o.mode.height) as real
    * 120.0 / o.scale as real
  }

  /** The point lies strictly inside the output. */
  ghost predicate Covers(o: Output, p: Point) {
    o.scale > 0 && o.x as real < p.x < o.x as real + Wide(o) && o.y as real < p.y < o.y as real + High(o)
  }

  ghost predicate ShareArea(a: Output, b: Output) {
    exists p :: Covers(a, p) && Covers(b, p)
  }

  /** Something is written in the name, nothing is zero, and the far edges are in range. */
  ghost predicate Fit(o: Output) {
    && (exists i :: 0 <= i < |o.name| && !Whitespace(o.name[i]))
    && o.mode.width > 0 && o.mode.height > 0 && o.scale > 0 && o.refresh > 0
    && o.x as real + Wide(o) <= 2147483647.0 && o.y as real + High(o) <= 2147483647.0
  }

  lemma Ratio(n: real, s: real)
    requires s > 0.0
    ensures n / (s / 120.0) == n * 120.0 / s
  {
    var d := s / 120.0;
    assert n / d * d == n;
    assert n * 120.0 / s * d == n;
  }

  lemma RectMeans(o: Output)
    requires o.scale > 0
    ensures Rect(o) == LogicalRect(o.x as real, o.y as real, Wide(o), High(o))
  {
    var size := Oriented(o.mode, o.transform);
    Ratio(size.width as real, o.scale as real);
    Ratio(size.height as real, o.scale as real);
  }

  lemma SoundMeansFit(o: Output)
    ensures Sound(o) <==> Fit(o)
    ensures o.scale > 0 && o.mode.width > 0 && o.mode.height > 0 ==> Wide(o) > 0.0 && High(o) > 0.0
  {
    if o.scale > 0 { RectMeans(o); }
  }

  /** A point between the later first edge and the earlier last edge. */
  function Between(a: real, b: real, c: real, d: real): real {
    ((if a >= b then a else b) + (if c <= d then c else d)) / 2.0
  }

  /** Overlapping is having area in common. */
  lemma OverlapMeans(a: Output, b: Output)
    requires Sound(a) && Sound(b)
    ensures Overlap(Rect(a), Rect(b)) <==> ShareArea(a, b)
  {
    RectMeans(a);
    RectMeans(b);
    SoundMeansFit(a);
    SoundMeansFit(b);
    var (r, s) := (Rect(a), Rect(b));
    var p := Point(Between(r.x, s.x, r.Right(), s.Right()), Between(r.y, s.y, r.Bottom(), s.Bottom()));
    assert Overlap(r, s) ==> Covers(a, p) && Covers(b, p);
  }

  /** The outputs can be connected together: each is fit, and no two have a name or any area in
      common. */
  ghost predicate Allowed(outputs: seq<Output>) {
    && (forall i {:trigger outputs[i]} | 0 <= i < |outputs| :: Fit(outputs[i]))
    && (forall i, j | 0 <= i < j < |outputs| :: outputs[i].name != outputs[j].name)
    && (forall i, j | 0 <= i < j < |outputs| :: !ShareArea(outputs[i], outputs[j]))
  }

  lemma AcceptableIffAllowed(outputs: seq<Output>)
    ensures Acceptable(outputs) <==> Allowed(outputs)
  {
    forall i {:trigger outputs[i]} | 0 <= i < |outputs| ensures Sound(outputs[i]) <==> Fit(outputs[i]) {
      SoundMeansFit(outputs[i]);
    }
    if AllSound(outputs) {
      forall i, j | 0 <= i < j < |outputs|
        ensures Overlap(Rect(outputs[i]), Rect(outputs[j])) <==> ShareArea(outputs[i], outputs[j])
      {
        OverlapMeans(outputs[i], outputs[j]);
      }
    }
  }

  datatype Error =
    | DuplicateName(name: string)
    | EmptyName(id: nat)
    | EmptyMode(id: nat)
    | InvalidScale(id: nat)
    | InvalidRefresh(id: nat)
    | CoordinateOverflow(id: nat)
    | OverlappingOutputs(first: string, second: string)

  function Codes(s: string): seq<int> {
    seq(|s|, i requires 0 <= i < |s| => s[i] as int)
  }

  /** Output `o` has the fault the error names. */
  ghost predicate AtFault(e: Error, o: Output) {
    match e
    case EmptyName(id) => o.id == id && Blank(o.name)
    case EmptyMode(id) => o.id == id && (o.mode.width == 0 || o.mode.height == 0)
    case InvalidScale(id) => o.id == id && o.scale == 0
    case InvalidRefresh(id) => o.id == id && o.refresh == 0
    case CoordinateOverflow(id) =>
      && o.id == id && o.scale > 0
      && (o.x as real + Wide(o) > 2147483647.0 || o.y as real + High(o) > 2147483647.0)
    case _ => false
  }

  /** Outputs `a` and `b` clash as the error says. */
  ghost predicate Clash(e: Error, a: Output, b: Output) {
    match e
    case DuplicateName(name) => a.name == name == b.name
    case OverlappingOutputs(first, second) =>
      && ShareArea(a, b)
      && ((a.name == first && b.name == second) || (a.name == second && b.name == first))
      && !Order.Less(Codes(second), Codes(first))
    case _ => false
  }

  /** No fault of `o` that is looked for before `e` is there. */
  ghost predicate Foremost(e: Error, o: Output, before: seq<Output>) {
    && (!e.EmptyName? ==> !Blank(o.name))
    && (!e.EmptyName? && !e.DuplicateName? ==> forall i | 0 <= i < |before| :: before[i].name != o.name)
    && (e.InvalidScale? || e.InvalidRefresh? || e.CoordinateOverflow? || e.OverlappingOutputs? ==>
          o.mode.width > 0 && o.mode.height > 0)
    && (e.InvalidRefresh? || e.CoordinateOverflow? || e.OverlappingOutputs? ==> o.scale > 0)
    && (e.CoordinateOverflow? || e.OverlappingOutputs? ==> o.refresh > 0)
    && (e.OverlappingOutputs? ==> Fit(o))
  }

  /** `e` is what is wrong with `o` after `before`: its own fault, or a clash with the first of them
      that it clashes with so. */
  ghost predicate IsFault(e: Error, o: Output, before: seq<Output>) {
    && Foremost(e, o, before)
    && (AtFault(e, o) ||
        exists i :: 0 <= i < |before| && Clash(e, before[i], o) && FirstSharing(e, o, before, i))
  }

  ghost predicate FirstSharing(e: Error, o: Output, before: seq<Output>, i: nat)
    requires i < |before|
  {
    e.OverlappingOutputs? ==> forall j | 0 <= j < i :: !ShareArea(before[j], o)
  }

  /** The error is the fault of the first output that has one. */
  ghost predicate Truthful(e: Error, outputs: seq<Output>) {
    exists k :: 0 <= k < |outputs| && Allowed(outputs[..k]) && IsFault(e, outputs[k], outputs[..k])
  }

  function Named(a: string, b: string): (e: Error)
    ensures e.OverlappingOutputs? && !Order.Less(Codes(e.second), Codes(e.first))
    ensures (e.first == a && e.second == b) || (e.first == b && e.second == a)
  {
    Order.Trichotomy(Codes(a), Codes(b));
    if Order.Less(Codes(b), Codes(a)) then OverlappingOutputs(b, a) else OverlappingOutputs(a, b)
  }

  /** The fault of one output by itself, checked in this order. */
  function OwnFault(o: Output): Option<Error> {
    if o.mode.width == 0 || o.mode.height == 0 then Some(EmptyMode(o.id))
    else if o.scale == 0 then Some(InvalidScale(o.id))
    else if o.refresh == 0 then Some(InvalidRefresh(o.id))
    else if !InRange(Rect(o)) then Some(CoordinateOverflow(o.id))
    else None
  }

  lemma OwnFaultIs(o: Output, before: seq<Output>)
    requires !Blank(o.name) && forall i | 0 <= i < |before| :: before[i].name != o.name
    ensures OwnFault(o).Some? ==> IsFault(OwnFault(o).value, o, before) && !Sound(o)
    ensures OwnFault(o).None? ==> Sound(o)
  {
    if o.scale > 0 { RectMeans(o); }
  }

  /** The first rectangle that overlaps `rect`, if any. */
  method FirstOverlap(rect: LogicalRect, rects: seq<(string, LogicalRect)>) returns (found: nat)
    ensures found <= |rects| && (found < |rects| ==> Overlap(rect, rects[found].1))
    ensures forall i | 0 <= i < found :: !Overlap(rect, rects[i].1)
  {
    found := 0;
    while found < |rects| && !Overlap(rect, rects[found].1)
      invariant found <= |rects| && forall i | 0 <= i < found :: !Overlap(rect, rects[i].1)
    {
      found := found + 1;
    }
  }

  /** The names and rectangles of the outputs seen so far. */
  ghost predicate Seen(outputs: seq<Output>, names: set<string>, rects: seq<(string, LogicalRect)>) {
    && (forall i | 0 <= i < |outputs| :: outputs[i].name in names)
    && (forall n | n in names :: exists i :: 0 <= i < |outputs| && outputs[i].name == n)
    && |rects| == |outputs|
    && AllSound(outputs)
    && forall i | 0 <= i < |outputs| :: rects[i] == (outputs[i].name, Rect(outputs[i]))
  }

  /** The first of the rectangles that overlaps is that of the first output sharing area. */
  lemma OverlapIsFault(o: Output, before: seq<Output>, names: set<string>, rects: seq<(string, LogicalRect)>, j: nat)
    requires Seen(before, names, rects) && Sound(o) && forall i | 0 <= i < |before| :: before[i].name != o.name
    requires j < |rects| && Overlap(Rect(o), rects[j].1) && forall i | 0 <= i < j :: !Overlap(Rect(o), rects[i].1)
    ensures IsFault(Named(o.name, rects[j].0), o, before) && !Compatible(before[j], o)
  {
    SoundMeansFit(o);
    forall i | 0 <= i <= j ensures ShareArea(before[i], o) <==> i == j {
      assert Sound(before[i]);
      OverlapMeans(before[i], o);
    }
    var e := Named(o.name, rects[j].0);
    assert Clash(e, before[j], o) && FirstSharing(e, o, before, j);
  }

  /** What is wrong with `o`, given the outputs before it. */
  method FaultOf(o: Output, ghost before: seq<Output>, names: set<string>, rects: seq<(string, LogicalRect)>)
    returns (e: Option<Error>)
    requires Seen(before, names, rects)
    ensures e.None? <==> Sound(o) && forall i | 0 <= i < |before| :: Compatible(before[i], o)
    ensures e.Some? ==> IsFault(e.value, o, before)
  {
    if Blank(o.name) { return Some(EmptyName(o.id)); }
    if o.name in names {
      ghost var i :| 0 <= i < |before| && before[i].name == o.name;
      assert Clash(DuplicateName(o.name), before[i], o) && FirstSharing(DuplicateName(o.name), o, before, i);
      assert Sound(o) ==> !Compatible(before[i], o);
      return Some(DuplicateName(o.name));
    }
    OwnFaultIs(o, before);
    if OwnFault(o).Some? { return OwnFault(o); }
    var j := FirstOverlap(Rect(o), rects);
    if j < |rects| {
      OverlapIsFault(o, before, names, rects, j);
      return Some(Named(o.name, rects[j].0));
    }
    return None;
  }

  /** Checks the outputs one by one, each against those before it: they pass if and only if they may
      be connected together, and otherwise the first that has a fault decides. */
  method Validate(outputs: seq<Output>) returns (e: Option<Error>)
    ensures e.None? <==> Acceptable(outputs)
    ensures e.None? <==> Allowed(outputs)
    ensures e.Some? ==> Truthful(e.value, outputs)
  {
    var names: set<string> := {};
    var rects: seq<(string, LogicalRect)> := [];
    AcceptableIffAllowed(outputs);
    for k := 0 to |outputs|
      invariant Acceptable(outputs[..k]) && Seen(outputs[..k], names, rects)
    {
      var o := outputs[k];
      e := FaultOf(o, outputs[..k], names, rects);
      if e.Some? {
        FaultStays(outputs, k, e.value);
        return;
      }
      AcceptOneMore(outputs, k);
      SeeOneMore(outputs, k, names, rects);
      names, rects := names + {o.name}, rects + [(o.name, Rect(o))];
    }
    assert outputs[..|outputs|] == outputs;
    return None;
  }

  lemma FaultStays(outputs: seq<Output>, k: nat, e: Error)
    requires k < |outputs| && Acceptable(outputs[..k]) && IsFault(e, outputs[k], outputs[..k])
    requires !(Sound(outputs[k]) && forall i | 0 <= i < k :: Compatible(outputs[..k][i], outputs[k]))
    ensures !Acceptable(outputs) && Truthful(e, outputs)
  {
    AcceptableIffAllowed(outputs[..k]);
    if Sound(outputs[k]) {
      var i :| 0 <= i < k && !Compatible(outputs[..k][i], outputs[k]);
      assert outputs[i] == outputs[..k][i];
    }
  }

  lemma SeeOneMore(outputs: seq<Output>, k: nat, names: set<string>, rects: seq<(string, LogicalRect)>)
    requires k < |outputs| && Seen(outputs[..k], names, rects) && Sound(outputs[k])
    ensures Seen(outputs[..k + 1], names + {outputs[k].name}, rects + [(outputs[k].name, Rect(outputs[k]))])
  {
    var next := outputs[..k + 1];
    assert next == outputs[..k] + [outputs[k]];
    forall n | n in names + {outputs[k].name} ensures exists i :: 0 <= i < |next| && next[i].name == n {
      if n in names {
        var i :| 0 <= i < k && outputs[..k][i].name == n;
        assert next[i].name == n;
      } else {
        assert next[k].name == n;
      }
    }
  }

  lemma AcceptOneMore(outputs: seq<Output>, k: nat)
    requires k < |outputs| && Acceptable(outputs[..k]) && Sound(outputs[k])
    requires forall i | 0 <= i < k :: Compatible(outputs[..k][i], outputs[k])
    ensures Acceptable(outputs[..k + 1])
  {
    assert outputs[..k + 1] == outputs[..k] + [outputs[k]];
  }

  // ---------------------------------------------------------------- transactions

  type Outputs = map<nat, Output>

  datatype Change = Upsert(output: Output) | Remove(id: nat) {
    function Target(): nat { if Upsert? then output.id else id }
  }

  function Changed(outputs: Outputs, c: Change): Outputs {
    match c
    case Upsert(o) => outputs[o.id := o]
    case Remove(id) => outputs - {id}
  }

  function Fold(outputs: Outputs, changes: seq<Change>): Outputs {
    if changes == [] then outputs else Changed(Fold(outputs, changes[..|changes| - 1]), changes[|changes| - 1])
  }

  /** What becomes of output `id`: what the last change that names it says, or as before. */
  function LastSays(outputs: Outputs, changes: seq<Change>, id: nat): Option<Output> {
    if changes == [] then (if id in outputs then Some(outputs[id]) else None)
    else
      var last := changes[|changes| - 1];
      if last.Target() == id then (if last.Upsert? then Some(last.output) else None)
      else LastSays(outputs, changes[..|changes| - 1], id)
  }

  /** For each output the last change wins. */
  lemma {:induction false} LastChangeWins(outputs: Outputs, changes: seq<Change>, id: nat)
    ensures var r := Fold(outputs, changes);
            LastSays(outputs, changes, id) == if id in r then Some(r[id]) else None
    decreases |changes|
  {
    if changes != [] { LastChangeWins(outputs, changes[..|changes| - 1], id); }
  }

  ghost predicate Keyed(outputs: Outputs) {
    forall id | id in outputs :: outputs[id].id == id
  }

  lemma {:induction false} FoldKeyed(outputs: Outputs, changes: seq<Change>)
    requires Keyed(outputs)
    ensures Keyed(Fold(outputs, changes))
    decreases |changes|
  {
    if changes != [] { FoldKeyed(outputs, changes[..|changes| - 1]); }
  }

  // ---------------------------------------------------------------- listing in id order

  lemma {:induction false} LeastExists(ids: set<nat>) returns (m: nat)
    requires ids != {}
    ensures m in ids && forall x | x in ids :: m <= x
    decreases ids
  {
    var some :| some in ids;
    m := some;
    if ids - {some} != {} {
      var n := LeastExists(ids - {some});
      if n < some { m := n; }
      assert forall x | x in ids :: x == some || x in ids - {some};
    } else {
      assert forall x | x in ids :: x == some || x in ids - {some};
    }
  }

  predicate LeastOf(ids: set<nat>, m: nat) {
    m in ids && forall x | x in ids :: m <= x
  }

  function Ascending(ids: set<nat>): (r: seq<nat>)
    ensures forall i, j | 0 <= i < j < |r| :: r[i] < r[j]
    ensures forall x :: x in r <==> x in ids
    decreases ids
  {
    if ids == {} then []
    else
      assert exists m :: LeastOf(ids, m) by { var m := LeastExists(ids); assert LeastOf(ids, m); }
      var m :| LeastOf(ids, m);
      [m] + Ascending(ids - {m})
  }

  function Listed(outputs: Outputs, ids: seq<nat>): seq<Output>
    requires forall i | 0 <= i < |ids| :: ids[i] in outputs
  {
    seq(|ids|, i requires 0 <= i < |ids| => outputs[ids[i]])
  }

  /** The outputs in ascending order of id. */
  function Values(outputs: Outputs): seq<Output> {
    Listed(outputs, Ascending(outputs.Keys))
  }

  // ---------------------------------------------------------------- the manager

  datatype State = State(epoch: nat, outputs: Outputs, primary: Option<string>) {
    ghost predicate Valid() {
      epoch < EPOCH_WRAP && Keyed(outputs) && Acceptable(Values(outputs))
    }
  }

  const EMPTY := State(0, map[], None)

  function NextEpoch(e: nat): (n: nat)
    requires e < EPOCH_WRAP
    ensures 0 < n < EPOCH_WRAP && n != e
    ensures if e < 0xffff_ffff_ffff_ffff then n == e + 1 else n == 1
  {
    var n := (e + 1) % EPOCH_WRAP;
    if n < 1 then 1 else n
  }

  function ChangedIds(before: Outputs, after: Outputs): set<nat> {
    set id | id in before && id in after && before[id] != after[id]
  }

  /** A transaction commits as a whole or not at all. */
  function Applied(s: State, changes: seq<Change>, primary: Option<string>): State
    requires s.epoch < EPOCH_WRAP
  {
    var staged := Fold(s.outputs, changes);
    if !Acceptable(Values(staged)) || (staged == s.outputs && primary == s.primary) then s
    else State(NextEpoch(s.epoch), staged, primary)
  }

  datatype Commit = Commit(previousEpoch: nat, epoch: nat, added: seq<nat>, removed: seq<nat>, changed: seq<nat>)

  lemma SameWhenNoneDiffer(before: Outputs, after: Outputs)
    ensures after == before <==>
            Ascending(after.Keys - before.Keys) == [] && Ascending(before.Keys - after.Keys) == []
            && Ascending(ChangedIds(before, after)) == []
  {
    if && Ascending(after.Keys - before.Keys) == [] && Ascending(before.Keys - after.Keys) == []
       && Ascending(ChangedIds(before, after)) == []
    {
      forall id ensures id in before <==> id in after {
        assert id !in Ascending(after.Keys - before.Keys) && id !in Ascending(before.Keys - after.Keys);
      }
      forall id | id in before ensures before[id] == after[id] {
        assert id !in Ascending(ChangedIds(before, after));
      }
    }
  }

  /** The changes one after another, on a copy. */
  method Stage(outputs: Outputs, changes: seq<Change>) returns (staged: Outputs)
    ensures staged == Fold(outputs, changes)
  {
    staged := outputs;
    for k := 0 to |changes|
      invariant staged == Fold(outputs, changes[..k])
    {
      assert changes[..k + 1][..k] == changes[..k];
      match changes[k]
      case Upsert(o) => staged := staged[o.id := o];
      case Remove(id) => staged := staged - {id};
    }
    assert changes[..|changes|] == changes;
  }

  /** The commit from `before` to `after`, exact in what it lists. */
  function Differences(epoch: nat, before: Outputs, after: Outputs, moved: bool): Commit
    requires epoch < EPOCH_WRAP
  {
    var added := Ascending(after.Keys - before.Keys);
    var removed := Ascending(before.Keys - after.Keys);
    var changed := Ascending(ChangedIds(before, after));
    var next := if added != [] || removed != [] || changed != [] || moved then NextEpoch(epoch) else epoch;
    Commit(epoch, next, added, removed, changed)
  }

  /** What the outcome of a transaction on `s` that stages `staged` and leaves `t` says: a true
      fault and nothing changed, or exactly what is now there, gone and different. */
  ghost predicate Reports(r: Result<Commit, Error>, s: State, staged: Outputs, t: State) {
    match r
    case Err(e) => !Acceptable(Values(staged)) && Truthful(e, Values(staged)) && t == s
    case Ok(c) =>
      && Acceptable(Values(staged)) && t.outputs == staged
      && c.previousEpoch == s.epoch && c.epoch == t.epoch
      && c.added == Ascending(t.outputs.Keys - s.outputs.Keys)
      && c.removed == Ascending(s.outputs.Keys - t.outputs.Keys)
      && c.changed == Ascending(ChangedIds(s.outputs, t.outputs))
  }

  lemma CommitIsValid(s: State, changes: seq<Change>, primary: Option<string>)
    requires s.Valid()
    ensures Applied(s, changes, primary).Valid()
  {
    FoldKeyed(s.outputs, changes);
  }

  class Manager {
    var epoch: nat
    var outputs: Outputs
    var primary: Option<string>

    ghost function View(): State
      reads this
    {
      State(epoch, outputs, primary)
    }

    constructor ()
      ensures View() == EMPTY && View().Valid()
    {
      epoch, outputs, primary := 0, map[], None;
    }

    /** Stages the changes on a copy, checks the whole result and only then commits it. */
    method Apply(changes: seq<Change>, wanted: Option<string>) returns (r: Result<Commit, Error>)
      requires View().Valid()
      modifies this
      ensures View() == Applied(old(View()), changes, wanted) && View().Valid()
      ensures Reports(r, old(View()), Fold(old(outputs), changes), View())
      ensures r.Ok? ==> outputs == Fold(old(outputs), changes) && primary == wanted
    {
      var staged := Stage(outputs, changes);
      CommitIsValid(View(), changes, wanted);
      var fault := Validate(Values(staged));
      if fault.Some? { return Err(fault.value); }
      var commit := Differences(epoch, outputs, staged, primary != wanted);
      SameWhenNoneDiffer(outputs, staged);
      if commit.added != [] || commit.removed != [] || commit.changed != [] || primary != wanted {
        epoch := NextEpoch(epoch);
        outputs := staged;
        primary := wanted;
      }
      return Ok(commit);
    }
  }

  // ---------------------------------------------------------------- runs

  /** The epoch moves exactly when outputs or primary output do, and is then not 0. */
  lemma EpochTellsChange(s: State, changes: seq<Change>, primary: Option<string>)
    requires s.Valid()
    ensures var t := Applied(s, changes, primary);
            && t.Valid()
            && (t.epoch != s.epoch <==> t.outputs != s.outputs || t.primary != s.primary)
            && (t != s ==> t.epoch == if s.epoch < 0xffff_ffff_ffff_ffff then s.epoch + 1 else 1)
  {
    CommitIsValid(s, changes, primary);
  }

  datatype Transaction = Transaction(changes: seq<Change>, primary: Option<string>)

  lemma EmptyIsValid()
    ensures EMPTY.Valid()
  {
  }

  ghost function Run(ts: seq<Transaction>): (t: State)
    ensures t.Valid()
  {
    if ts == [] then
      EmptyIsValid();
      EMPTY
    else
      var t := Run(ts[..|ts| - 1]);
      var last := ts[|ts| - 1];
      EpochTellsChange(t, last.changes, last.primary);
      Applied(t, last.changes, last.primary)
  }

  lemma ValidMeans(s: State, a: nat, b: nat)
    requires s.Valid() && a in s.outputs && b in s.outputs
    ensures s.outputs[a].id == a && Sound(s.outputs[a]) && Sound(s.outputs[b])
    ensures a != b ==> Compatible(s.outputs[a], s.outputs[b])
  {
    var i := ListedAt(s.outputs, a);
    var j := ListedAt(s.outputs, b);
    assert Sound(Values(s.outputs)[i]) && Sound(Values(s.outputs)[j]);
    if i < j {
      assert Compatible(Values(s.outputs)[i], Values(s.outputs)[j]);
    } else if j < i {
      assert Compatible(Values(s.outputs)[j], Values(s.outputs)[i]);
    }
  }

  /** Whatever is pushed through however many transactions, the committed outputs keep
      nonblank unique names, positive modes, scales and refresh rates, coordinates in range,
      and no point inside two of them. */
  lemma EveryRunAcceptable(ts: seq<Transaction>, a: nat, b: nat)
    requires a in Run(ts).outputs && b in Run(ts).outputs
    ensures var outputs := Run(ts).outputs;
            && outputs[a].id == a && Sound(outputs[a]) && Sound(outputs[b]) && Fit(outputs[a])
            && (a != b ==> Compatible(outputs[a], outputs[b]) && outputs[a].name != outputs[b].name)
            && (a != b ==> forall p :: !(Covers(outputs[a], p) && Covers(outputs[b], p)))
  {
    ValidMeans(Run(ts), a, b);
    var outputs := Run(ts).outputs;
    SoundMeansFit(outputs[a]);
    OverlapMeans(outputs[a], outputs[b]);
  }

  lemma ListedAt(outputs: Outputs, id: nat) returns (i: nat)
    requires id in outputs
    ensures i < |Values(outputs)| && Ascending(outputs.Keys)[i] == id && Values(outputs)[i] == outputs[id]
  {
    assert id in Ascending(outputs.Keys);
    i :| 0 <= i < |Ascending(outputs.Keys)| && Ascending(outputs.Keys)[i] == id;
  }
}
