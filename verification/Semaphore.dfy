// Bounded concurrency per capability: a buffered channel made on first use, whose
// capacity is whatever cap was configured at that moment.
module Semaphore {

  datatype Channel = Channel(capacity: nat, used: nat)

  datatype Sems = Sems(sems: map<string, Channel>, caps: map<string, int>, defaultCap: int)

  predicate ValidSems(s: Sems) {
    && s.defaultCap > 0
    && (forall c :: c in s.caps ==> s.caps[c] > 0)
    && (forall c :: c in s.sems ==> 0 < s.sems[c].capacity && s.sems[c].used <= s.sems[c].capacity)
  }

  function CapOf(s: Sems, capID: string): int {
    if capID in s.caps then s.caps[capID] else s.defaultCap
  }

  function ChannelOf(s: Sems, capID: string): Channel
    requires ValidSems(s)
  {
    if capID in s.sems then s.sems[capID] else Channel(CapOf(s, capID), 0)
  }

  function Used(s: Sems, capID: string): nat {
    if capID in s.sems then s.sems[capID].used else 0
  }

  function SetCapTo(s: Sems, capID: string, cap: int): Sems {
    s.(caps := s.caps[capID := if cap <= 0 then s.defaultCap else cap])
  }

  function AcquireSlot(s: Sems, capID: string): (Sems, bool)
    requires ValidSems(s)
  {
    var ch := ChannelOf(s, capID);
    if ch.used < ch.capacity then (s.(sems := s.sems[capID := ch.(used := ch.used + 1)]), true)
    else (s.(sems := s.sems[capID := ch]), false)
  }

  function ReleaseSlot(s: Sems, capID: string): Sems {
    if capID in s.sems && s.sems[capID].used > 0
    then s.(sems := s.sems[capID := s.sems[capID].(used := s.sems[capID].used - 1)])
    else s
  }

  class SemaphoreSet {
    var sems: map<string, Channel>
    var caps: map<string, int>
    const defaultCap: int

    function State(): Sems
      reads this
    {
      Sems(sems, caps, defaultCap)
    }

    ghost predicate Valid()
      reads this
    {
      ValidSems(State())
    }

    constructor (cap: int)
      ensures Valid() && State() == Sems(map[], map[], if cap <= 0 then 8 else cap)
    {
      sems, caps := map[], map[];
      defaultCap := if cap <= 0 then 8 else cap;
    }

    method SetCap(capID: string, cap: int)
      requires Valid()
      modifies this
      ensures Valid() && State() == SetCapTo(old(State()), capID, cap)
    {
      caps := caps[capID := if cap <= 0 then defaultCap else cap];
    }

    method Acquire(capID: string) returns (ok: bool)
      requires Valid()
      modifies this
      ensures Valid() && (State(), ok) == AcquireSlot(old(State()), capID)
    {
      if capID !in sems {
        sems := sems[capID := Channel(if capID in caps then caps[capID] else defaultCap, 0)];
      }
      var ch := sems[capID];
      ok := ch.used < ch.capacity;
      if ok {
        sems := sems[capID := Channel(ch.capacity, ch.used + 1)];
      }
      assert sems == AcquireSlot(old(State()), capID).0.sems;
    }

    // Safe when no slot is held: an empty or missing channel stays as it is.
    method Release(capID: string)
      requires Valid()
      modifies this
      ensures Valid() && State() == ReleaseSlot(old(State()), capID)
    {
      if capID in sems {
        var ch := sems[capID];
        if ch.used > 0 {
          sems := sems[capID := Channel(ch.capacity, ch.used - 1)];
        }
      }
    }
  }

  // A slot taken and given back at once leaves every capability's usage as it was,
  // and an acquire fails exactly when the channel is full.
  lemma AcquireThenRelease(s: Sems, capID: string)
    requires ValidSems(s)
    ensures var a := AcquireSlot(s, capID);
      && ValidSems(a.0)
      && (a.1 <==> Used(s, capID) < ChannelOf(s, capID).capacity)
      && (forall c :: Used(a.0, c) == Used(s, c) + (if a.1 && c == capID then 1 else 0))
      && (a.1 ==> ValidSems(ReleaseSlot(a.0, capID)) && forall c :: Used(ReleaseSlot(a.0, capID), c) == Used(s, c))
  {
  }

  datatype Op = SetCap(capID: string, cap: int) | Acquire(capID: string) | Release(capID: string)

  function Apply(s: Sems, op: Op): Sems
    requires ValidSems(s)
  {
    match op
    case SetCap(c, n) => SetCapTo(s, c, n)
    case Acquire(c) => AcquireSlot(s, c).0
    case Release(c) => ReleaseSlot(s, c)
  }

  lemma ApplyKeepsValid(s: Sems, op: Op)
    requires ValidSems(s)
    ensures ValidSems(Apply(s, op))
  {
  }

  function RunOps(s: Sems, ops: seq<Op>): Sems
    requires ValidSems(s)
    decreases |ops|
  {
    if ops == [] then s
    else
      ApplyKeepsValid(s, ops[0]);
      RunOps(Apply(s, ops[0]), ops[1..])
  }

  // The bound of a capability is the cap in force at its first acquire, for ever: a
  // later SetCap changes what Cap reports and nothing else.
  lemma {:induction false} FirstAcquireFixesTheBound(s: Sems, ops: seq<Op>, capID: string)
    requires ValidSems(s) && capID in s.sems
    ensures var t := RunOps(s, ops);
      ValidSems(t) && capID in t.sems && t.sems[capID].capacity == s.sems[capID].capacity
    decreases |ops|
  {
    if ops != [] {
      ApplyKeepsValid(s, ops[0]);
      FirstAcquireFixesTheBound(Apply(s, ops[0]), ops[1..], capID);
    }
  }

  // SetCap takes effect exactly while the capability has never been acquired.
  lemma SetCapTakesEffectIff(s: Sems, capID: string, cap: int)
    requires ValidSems(s) && cap > 0 && cap != ChannelOf(s, capID).capacity
    ensures ChannelOf(SetCapTo(s, capID, cap), capID).capacity == cap <==> capID !in s.sems
  {
  }
}
