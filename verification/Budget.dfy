/** The budget of platform messages in flight: two counters that any number of threads raise,
    roll back and lower without a lock, and a pool of message storage under one. */
module Budget {
  import opened Basics

  const MAX_BYTES := 16 * 1024 * 1024
  const MAX_MESSAGES := 256
  const USIZE_WRAP := 0x1_0000_0000_0000_0000
  const USIZE_MAX := USIZE_WRAP - 1

  // ---------------------------------------------------------------- permits

  /** A call or a permit: counted as a message but not yet for its bytes, refused and rolling
      back, a live permit, one that has given its bytes back, or nothing any more. */
  datatype Permit = Counted(bytes: nat) | Refused | Live(bytes: nat) | Returned | Gone

  datatype State = State(messages: nat, bytes: nat, permits: seq<Permit>)

  const INITIAL := State(0, 0, [])

  /** Atomic subtraction wraps around below zero. */
  function Lowered(a: nat, b: nat): nat {
    (a - b) % USIZE_WRAP
  }

  datatype Step =
    | Count(bytes: nat)
    | Charge(i: nat)
    | RollBack(i: nat)
    | GiveBytes(i: nat)
    | GiveMessage(i: nat)

  /** One atomic action of one thread; one that is not possible changes nothing. */
  function Do(s: State, step: Step): State {
    match step
    case Count(b) =>
      if b > MAX_BYTES || s.messages >= MAX_MESSAGES then s
      else s.(messages := s.messages + 1, permits := s.permits + [Counted(b)])
    case Charge(i) =>
      if i >= |s.permits| || !s.permits[i].Counted? then s
      else
        var total := s.bytes + s.permits[i].bytes;
        if total > USIZE_MAX || total > MAX_BYTES then s.(permits := s.permits[i := Refused])
        else s.(bytes := total, permits := s.permits[i := Live(s.permits[i].bytes)])
    case RollBack(i) =>
      if i >= |s.permits| || s.permits[i] != Refused then s
      else s.(messages := Lowered(s.messages, 1), permits := s.permits[i := Gone])
    case GiveBytes(i) =>
      if i >= |s.permits| || !s.permits[i].Live? then s
      else s.(bytes := Lowered(s.bytes, s.permits[i].bytes), permits := s.permits[i := Returned])
    case GiveMessage(i) =>
      if i >= |s.permits| || s.permits[i] != Returned then s
      else s.(messages := Lowered(s.messages, 1), permits := s.permits[i := Gone])
  }

  function Run(steps: seq<Step>): State {
    if steps == [] then INITIAL else Do(Run(steps[..|steps| - 1]), steps[|steps| - 1])
  }

  function Counts(ps: seq<Permit>): nat {
    if ps == [] then 0 else One(!ps[0].Gone?) + Counts(ps[1..])
  }

  function LiveCount(ps: seq<Permit>): nat {
    if ps == [] then 0 else One(ps[0].Live?) + LiveCount(ps[1..])
  }

  function Held(p: Permit): nat { if p.Live? then p.bytes else 0 }

  function LiveBytes(ps: seq<Permit>): nat {
    if ps == [] then 0 else Held(ps[0]) + LiveBytes(ps[1..])
  }

  lemma {:induction false} Changed(ps: seq<Permit>, i: nat, p: Permit)
    requires i < |ps|
    ensures Counts(ps[i := p]) == Counts(ps) - One(!ps[i].Gone?) + One(!p.Gone?)
    ensures LiveBytes(ps[i := p]) == LiveBytes(ps) - Held(ps[i]) + Held(p)
    ensures One(!ps[i].Gone?) <= Counts(ps) && Held(ps[i]) <= LiveBytes(ps)
  {
    if i > 0 {
      assert ps[i := p][1..] == ps[1..][i - 1 := p];
      Changed(ps[1..], i - 1, p);
    } else {
      assert ps[i := p][1..] == ps[1..];
    }
  }

  lemma {:induction false} Grown(ps: seq<Permit>, b: nat)
    ensures Counts(ps + [Counted(b)]) == Counts(ps) + 1 && LiveBytes(ps + [Counted(b)]) == LiveBytes(ps)
  {
    if ps != [] {
      assert (ps + [Counted(b)])[1..] == ps[1..] + [Counted(b)];
      Grown(ps[1..], b);
    }
  }

  /** The counters are what is under way, within the limits. */
  ghost predicate Exact(s: State) {
    && s.messages == Counts(s.permits) <= MAX_MESSAGES
    && s.bytes == LiveBytes(s.permits) <= MAX_BYTES
  }

  lemma LoweredIsLess(a: nat, b: nat)
    requires b <= a < USIZE_WRAP
    ensures Lowered(a, b) == a - b
  {
  }

  lemma MessageGiven(s: State, i: nat)
    requires Exact(s) && i < |s.permits| && (s.permits[i].Refused? || s.permits[i].Returned?)
    ensures Exact(s.(messages := Lowered(s.messages, 1), permits := s.permits[i := Gone]))
  {
    Changed(s.permits, i, Gone);
    LoweredIsLess(s.messages, 1);
  }

  lemma BytesGiven(s: State, i: nat)
    requires Exact(s) && i < |s.permits| && s.permits[i].Live?
    ensures Exact(s.(bytes := Lowered(s.bytes, s.permits[i].bytes), permits := s.permits[i := Returned]))
  {
    Changed(s.permits, i, Returned);
    LoweredIsLess(s.bytes, s.permits[i].bytes);
  }

  lemma StepExact(s: State, step: Step)
    requires Exact(s)
    ensures Exact(Do(s, step))
  {
    match step
    case Count(b) => Grown(s.permits, b);
    case Charge(i) =>
      if i < |s.permits| && s.permits[i].Counted? {
        Changed(s.permits, i, Refused);
        Changed(s.permits, i, Live(s.permits[i].bytes));
      }
    case RollBack(i) => if i < |s.permits| && s.permits[i].Refused? { MessageGiven(s, i); }
    case GiveBytes(i) => if i < |s.permits| && s.permits[i].Live? { BytesGiven(s, i); }
    case GiveMessage(i) => if i < |s.permits| && s.permits[i].Returned? { MessageGiven(s, i); }
  }

  lemma {:induction false} EveryRunExact(steps: seq<Step>)
    ensures Exact(Run(steps))
    decreases |steps|
  {
    if steps != [] {
      EveryRunExact(steps[..|steps| - 1]);
      StepExact(Run(steps[..|steps| - 1]), steps[|steps| - 1]);
    }
  }

  lemma {:induction false} LiveAmongCounted(ps: seq<Permit>)
    ensures LiveCount(ps) <= Counts(ps)
    ensures (forall i | 0 <= i < |ps| :: ps[i].Live? || ps[i].Gone?) ==> LiveCount(ps) == Counts(ps)
  {
    if ps != [] { LiveAmongCounted(ps[1..]); }
  }

  /** Under every interleaving of acquiring, rolling back and dropping: live permits are never
      more than 256 nor their bytes more than 16 MiB, and when no call is in progress the
      counters are exactly the live permits and their bytes. */
  lemma QuotaHolds(steps: seq<Step>)
    ensures var s := Run(steps);
            && LiveCount(s.permits) <= s.messages <= MAX_MESSAGES
            && LiveBytes(s.permits) == s.bytes <= MAX_BYTES
            && ((forall i | 0 <= i < |s.permits| :: s.permits[i].Live? || s.permits[i].Gone?) ==>
                  s.messages == LiveCount(s.permits))
  {
    EveryRunExact(steps);
    LiveAmongCounted(Run(steps).permits);
  }

  /** No counter is ever lowered below zero. */
  lemma NoUnderflow(steps: seq<Step>, i: nat)
    requires i < |Run(steps).permits|
    ensures var s := Run(steps);
            && (s.permits[i].Refused? || s.permits[i].Returned? ==> s.messages >= 1)
            && (s.permits[i].Live? ==> s.bytes >= s.permits[i].bytes)
  {
    EveryRunExact(steps);
    Changed(Run(steps).permits, i, Gone);
  }

  /** Within both limits. */
  ghost predicate Room(s: State, bytes: nat) {
    Counts(s.permits) < 256 && LiveBytes(s.permits) + bytes <= 16777216
  }

  lemma CountedIn(s: State, bytes: nat)
    requires Exact(s) && bytes <= 16777216 && Counts(s.permits) < 256
    ensures Do(s, Count(bytes)) == State(s.messages + 1, s.bytes, s.permits + [Counted(bytes)])
  {
  }

  lemma LastOf(ps: seq<Permit>, p: Permit, q: Permit)
    ensures (ps + [p])[|ps| := q] == ps + [q]
  {
  }

  lemma GivenAndBack(s: State, bytes: nat)
    requires Exact(s) && Room(s, bytes)
    ensures var (i, t) := (|s.permits|, Do(Do(s, Count(bytes)), Charge(|s.permits|)));
            && t == State(s.messages + 1, s.bytes + bytes, s.permits + [Live(bytes)])
            && Do(Do(t, GiveBytes(i)), GiveMessage(i)) == s.(permits := s.permits + [Gone])
  {
    var (i, t) := (|s.permits|, Do(Do(s, Count(bytes)), Charge(|s.permits|)));
    CountedIn(s, bytes);
    LastOf(s.permits, Counted(bytes), Live(bytes));
    assert t == State(s.messages + 1, s.bytes + bytes, s.permits + [Live(bytes)]);
    LastOf(s.permits, Live(bytes), Returned);
    LoweredIsLess(s.bytes + bytes, bytes);
    assert Do(t, GiveBytes(i)) == State(s.messages + 1, s.bytes, s.permits + [Returned]);
    LastOf(s.permits, Returned, Gone);
    LoweredIsLess(s.messages + 1, 1);
  }

  lemma RefusedAndBack(s: State, bytes: nat)
    requires Exact(s) && !Room(s, bytes)
    ensures var t := Do(Do(Do(s, Count(bytes)), Charge(|s.permits|)), RollBack(|s.permits|));
            t == s || t == s.(permits := s.permits + [Gone])
  {
    if bytes <= 16777216 && Counts(s.permits) < 256 {
      CountedIn(s, bytes);
      LastOf(s.permits, Counted(bytes), Refused);
      LastOf(s.permits, Refused, Gone);
      LoweredIsLess(s.messages + 1, 1);
    }
  }

  /** A call that nobody races gets its permit if and only if it is within both limits: fewer than
      256 messages under way, and with its bytes no more than 16 MiB of live ones. Otherwise, and
      once a permit is dropped, both counters are as before. */
  lemma CallDecides(steps: seq<Step>, bytes: nat, s: State)
    requires s == Run(steps)
    ensures var (i, t) := (|s.permits|, Do(Do(s, Count(bytes)), Charge(|s.permits|)));
            if Room(s, bytes) then
              && t == State(s.messages + 1, s.bytes + bytes, s.permits + [Live(bytes)])
              && Do(Do(t, GiveBytes(i)), GiveMessage(i)) == s.(permits := s.permits + [Gone])
            else Do(t, RollBack(i)) == s || Do(t, RollBack(i)) == s.(permits := s.permits + [Gone])
  {
    EveryRunExact(steps);
    if Room(s, bytes) { GivenAndBack(s, bytes); } else { RefusedAndBack(s, bytes); }
  }

  // ---------------------------------------------------------------- storage

  /** Storage by its capacities. */
  datatype Storage = Storage(channel: nat, payload: nat) {
    function Size(): nat { SaturatingAdd(channel, payload) }
  }

  function SaturatingAdd(a: nat, b: nat): nat {
    if a + b > USIZE_MAX then USIZE_MAX else a + b
  }

  function SaturatingSub(a: nat, b: nat): nat {
    if a >= b then a - b else 0
  }

  function Total(entries: seq<Storage>): nat {
    if entries == [] then 0
    else
      var last := entries[|entries| - 1];
      Total(entries[..|entries| - 1]) + last.channel + last.payload
  }

  class Pool {
    var entries: seq<Storage>
    var retained: nat

    /** The counter is the capacity of what is pooled, within the limits. */
    ghost predicate Valid()
      reads this
    {
      |entries| <= MAX_MESSAGES && retained == Total(entries) <= MAX_BYTES
    }

    constructor ()
      ensures Valid() && entries == []
    {
      entries, retained := [], 0;
    }

    /** The storage pooled last, or new storage; the subtraction never saturates. */
    method Acquire() returns (s: Storage)
      requires Valid()
      modifies this
      ensures Valid()
      ensures if old(entries) == [] then s == Storage(0, 0) && entries == []
              else old(entries) == entries + [s] && old(retained) == retained + s.channel + s.payload
    {
      if entries == [] { return Storage(0, 0); }
      s := entries[|entries| - 1];
      entries := entries[..|entries| - 1];
      retained := SaturatingSub(retained, s.Size());
    }

    /** Pools the storage if it fits in number and size, and drops it otherwise. */
    method Release(s: Storage)
      requires Valid()
      modifies this
      ensures Valid()
      ensures if |old(entries)| < MAX_MESSAGES && Total(old(entries)) + s.channel + s.payload <= MAX_BYTES
              then entries == old(entries) + [s] else entries == old(entries)
    {
      var next := retained + s.Size();
      if next > USIZE_MAX { return; }
      if |entries| >= MAX_MESSAGES || next > MAX_BYTES { return; }
      assert (entries + [s])[..|entries|] == entries;
      entries := entries + [s];
      retained := next;
    }
  }
}
