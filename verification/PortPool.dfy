// The local allocator's host ports: one UDP and one TCP port per match.
module PortPool {
  import opened Basics

  datatype Pair = Pair(udp: int, tcp: int)

  // Who holds a pair: an allocation still waiting for its server, a running match
  // found by request id, or a stop call that has taken the pair off its match.
  datatype Holder = InFlight(call: nat) | Tracked(requestId: string) | Stopping(stopCall: nat)

  // A parsed port range always satisfies 1 <= lo <= hi.
  datatype Range = Range(lo: int, hi: int) {
    predicate Valid() { 1 <= lo <= hi }
    function Size(): int { hi - lo + 1 }
    predicate Has(i: int) { lo <= i <= hi }
    ghost function Ports(): set<int>
      decreases hi - lo
    {
      if lo > hi then {} else {lo} + Range(lo + 1, hi).Ports()
    }
  }

  datatype World = World(udpRange: Range, tcpRange: Range, udp: set<int>, tcp: set<int>, holders: map<Holder, Pair>)

  // The lowest port not in use, 0 when there is none.
  function FirstFree(lo: int, hi: int, inUse: set<int>): int
    decreases hi - lo
  {
    if lo > hi then 0 else if lo !in inUse then lo else FirstFree(lo + 1, hi, inUse)
  }

  function NextPair(w: World): Option<Pair> {
    var udp := FirstFree(w.udpRange.lo, w.udpRange.hi, w.udp);
    if udp == 0 then None
    else
      var tcp := FirstFree(w.tcpRange.lo, w.tcpRange.hi, w.tcp);
      if tcp == 0 then None else Some(Pair(udp, tcp))
  }

  datatype Step =
    | Begin(call: nat)
    | Abort(call: nat)
    | Track(call: nat, requestId: string)
    | Unhook(stopCall: nat, requestId: string)
    | Finish(stopCall: nat)

  // Calls and request ids are distinct; a step of a call belongs to where it is.
  predicate Enabled(w: World, s: Step) {
    match s
    case Begin(c) => InFlight(c) !in w.holders
    case Abort(c) => InFlight(c) in w.holders
    case Track(c, id) => InFlight(c) in w.holders && Tracked(id) !in w.holders
    case Unhook(c, id) => Stopping(c) !in w.holders
    case Finish(c) => true
  }

  function Give(w: World, h: Holder, p: Pair): World {
    w.(udp := w.udp + {p.udp}, tcp := w.tcp + {p.tcp}, holders := w.holders[h := p])
  }

  function Free(w: World, h: Holder): World
    requires h in w.holders
  {
    var p := w.holders[h];
    w.(udp := w.udp - {p.udp}, tcp := w.tcp - {p.tcp}, holders := w.holders - {h})
  }

  function Move(w: World, from: Holder, to: Holder): World
    requires from in w.holders
  {
    w.(holders := (w.holders - {from})[to := w.holders[from]])
  }

  function Apply(w: World, s: Step): World
    requires Enabled(w, s)
  {
    match s
    case Begin(c) => if NextPair(w).Some? then Give(w, InFlight(c), NextPair(w).value) else w
    case Abort(c) => Free(w, InFlight(c))
    case Track(c, id) => Move(w, InFlight(c), Tracked(id))
    case Unhook(c, id) => if Tracked(id) in w.holders then Move(w, Tracked(id), Stopping(c)) else w
    case Finish(c) => if Stopping(c) in w.holders then Free(w, Stopping(c)) else w
  }

  // ----- Conservation -----

  ghost predicate NoneHeldTwice(holders: map<Holder, Pair>) {
    forall g, h :: g in holders && h in holders && g != h ==>
      holders[g].udp != holders[h].udp && holders[g].tcp != holders[h].tcp
  }

  ghost function UdpOf(holders: map<Holder, Pair>): set<int> { set h | h in holders :: holders[h].udp }

  ghost function TcpOf(holders: map<Holder, Pair>): set<int> { set h | h in holders :: holders[h].tcp }

  // The ports in use are exactly the held ones, each held once, all in range.
  ghost predicate Inv(w: World) {
    && w.udpRange.Valid() && w.tcpRange.Valid()
    && NoneHeldTwice(w.holders)
    && w.udp == UdpOf(w.holders) && w.tcp == TcpOf(w.holders)
    && (forall u :: u in w.udp ==> w.udpRange.Has(u)) && (forall t :: t in w.tcp ==> w.tcpRange.Has(t))
    && |w.udp| == |w.holders| == |w.tcp|
  }

  lemma {:induction false} FirstFreeIsFree(lo: int, hi: int, inUse: set<int>)
    requires 1 <= lo
    ensures var r := FirstFree(lo, hi, inUse);
            if r == 0 then forall i :: lo <= i <= hi ==> i in inUse
            else lo <= r <= hi && r !in inUse && forall i :: lo <= i < r ==> i in inUse
    decreases hi - lo
  {
    if lo <= hi && lo in inUse {
      FirstFreeIsFree(lo + 1, hi, inUse);
    }
  }

  lemma PortsGiven(holders: map<Holder, Pair>, h: Holder, p: Pair)
    requires h !in holders
    ensures UdpOf(holders[h := p]) == UdpOf(holders) + {p.udp}
    ensures TcpOf(holders[h := p]) == TcpOf(holders) + {p.tcp}
    ensures |holders[h := p]| == |holders| + 1
  {
    var after := holders[h := p];
    assert after.Keys == holders.Keys + {h};
    forall g | g in after ensures after[g] == if g == h then p else holders[g] {
    }
    forall g | g in holders ensures holders[g].udp in UdpOf(after) && holders[g].tcp in TcpOf(after) {
      assert g in after;
    }
    assert h in after;
  }

  lemma PortsFreed(holders: map<Holder, Pair>, h: Holder)
    requires h in holders && NoneHeldTwice(holders)
    ensures UdpOf(holders - {h}) == UdpOf(holders) - {holders[h].udp}
    ensures TcpOf(holders - {h}) == TcpOf(holders) - {holders[h].tcp}
    ensures |holders - {h}| == |holders| - 1 && NoneHeldTwice(holders - {h})
  {
    var after := holders - {h};
    assert after.Keys == holders.Keys - {h};
    forall g | g in after ensures g in holders && after[g] == holders[g] && g != h {
    }
    forall g | g in holders && g != h ensures holders[g].udp in UdpOf(after) && holders[g].tcp in TcpOf(after) {
      assert g in after;
    }
  }

  lemma HolderInUse(holders: map<Holder, Pair>, h: Holder)
    requires h in holders
    ensures holders[h].udp in UdpOf(holders) && holders[h].tcp in TcpOf(holders)
  {
  }

  lemma GiveKeepsInv(w: World, h: Holder)
    requires Inv(w) && h !in w.holders && NextPair(w).Some?
    ensures Inv(Give(w, h, NextPair(w).value))
  {
    hide UdpOf, TcpOf, FirstFree;
    var p := NextPair(w).value;
    FirstFreeIsFree(w.udpRange.lo, w.udpRange.hi, w.udp);
    FirstFreeIsFree(w.tcpRange.lo, w.tcpRange.hi, w.tcp);
    PortsGiven(w.holders, h, p);
    NoneTwiceGiven(w, h, p);
  }

  lemma NoneTwiceGiven(w: World, h: Holder, p: Pair)
    requires NoneHeldTwice(w.holders) && h !in w.holders
    requires p.udp !in UdpOf(w.holders) && p.tcp !in TcpOf(w.holders)
    ensures NoneHeldTwice(w.holders[h := p])
  {
    hide UdpOf, TcpOf;
    forall g | g in w.holders ensures w.holders[g].udp != p.udp && w.holders[g].tcp != p.tcp {
      HolderInUse(w.holders, g);
    }
  }

  lemma FreeKeepsInv(w: World, h: Holder)
    requires Inv(w) && h in w.holders
    ensures Inv(Free(w, h))
  {
    hide UdpOf, TcpOf, NoneHeldTwice;
    PortsFreed(w.holders, h);
    HolderInUse(w.holders, h);
  }

  lemma MoveKeepsInv(w: World, from: Holder, to: Holder)
    requires Inv(w) && from in w.holders && to !in w.holders
    ensures Inv(Move(w, from, to))
  {
    hide UdpOf, TcpOf, NoneHeldTwice;
    var p := w.holders[from];
    PortsFreed(w.holders, from);
    PortsGiven(w.holders - {from}, to, p);
    HolderInUse(w.holders, from);
    NoneTwiceGiven(w.(holders := w.holders - {from}), to, p);
    assert UdpOf(w.holders) - {p.udp} + {p.udp} == UdpOf(w.holders);
    assert TcpOf(w.holders) - {p.tcp} + {p.tcp} == TcpOf(w.holders);
  }

  lemma StepKeepsInv(w: World, s: Step)
    requires Inv(w) && Enabled(w, s)
    ensures Inv(Apply(w, s))
  {
    hide Inv;
    match s
    case Begin(c) =>
      if NextPair(w).Some? {
        GiveKeepsInv(w, InFlight(c));
      }
    case Abort(c) => FreeKeepsInv(w, InFlight(c));
    case Track(c, id) => MoveKeepsInv(w, InFlight(c), Tracked(id));
    case Unhook(c, id) =>
      if Tracked(id) in w.holders {
        MoveKeepsInv(w, Tracked(id), Stopping(c));
      }
    case Finish(c) =>
      if Stopping(c) in w.holders {
        FreeKeepsInv(w, Stopping(c));
      }
  }

  function Fresh(udpRange: Range, tcpRange: Range): World {
    World(udpRange, tcpRange, {}, {}, map[])
  }

  // A run of whole steps; one that is not enabled does not happen.
  function Run(w: World, steps: seq<Step>): World {
    if steps == [] then w
    else
      var before, last := Run(w, steps[..|steps| - 1]), steps[|steps| - 1];
      if Enabled(before, last) then Apply(before, last) else before
  }

  lemma RunTakesEachStep(w: World, steps: seq<Step>, s: Step)
    ensures Run(w, []) == w
    ensures Enabled(Run(w, steps), s) ==> Run(w, steps + [s]) == Apply(Run(w, steps), s)
  {
    assert (steps + [s])[..|steps|] == steps;
  }

  predicate UdpIsOut(w: World, port: int) { exists h :: h in w.holders && w.holders[h].udp == port }

  predicate TcpIsOut(w: World, port: int) { exists h :: h in w.holders && w.holders[h].tcp == port }

  // The pair's ports are the lowest of their ranges that nobody holds.
  ghost predicate IsLowestFree(w: World, p: Pair) {
    && w.udpRange.lo <= p.udp <= w.udpRange.hi && !UdpIsOut(w, p.udp)
    && w.tcpRange.lo <= p.tcp <= w.tcpRange.hi && !TcpIsOut(w, p.tcp)
    && (forall i :: w.udpRange.lo <= i < p.udp ==> UdpIsOut(w, i))
    && (forall i :: w.tcpRange.lo <= i < p.tcp ==> TcpIsOut(w, i))
  }

  lemma NextPairIsLowestFree(w: World)
    requires Inv(w)
    ensures NextPair(w).Some? <==>
            |w.holders| < w.udpRange.hi - w.udpRange.lo + 1 && |w.holders| < w.tcpRange.hi - w.tcpRange.lo + 1
    ensures NextPair(w).Some? ==> IsLowestFree(w, NextPair(w).value)
  {
    AllocateFailsExactlyWhen(w);
    FirstFreeIsFree(w.udpRange.lo, w.udpRange.hi, w.udp);
    FirstFreeIsFree(w.tcpRange.lo, w.tcpRange.hi, w.tcp);
    hide FirstFree, NoneHeldTwice;
    forall i ensures UdpIsOut(w, i) <==> i in w.udp {
    }
    forall i ensures TcpIsOut(w, i) <==> i in w.tcp {
    }
  }

  // A pair passes from one holder to another.
  function Passed(holders: map<Holder, Pair>, from: Holder, to: Holder): map<Holder, Pair>
    requires from in holders
  {
    (holders - {from})[to := holders[from]]
  }

  lemma BeginTakesAPair(w: World, c: nat)
    requires Inv(w) && InFlight(c) !in w.holders
    ensures var after := Apply(w, Begin(c)).holders;
            if |w.holders| < w.udpRange.hi - w.udpRange.lo + 1 && |w.holders| < w.tcpRange.hi - w.tcpRange.lo + 1
            then InFlight(c) in after && after - {InFlight(c)} == w.holders && IsLowestFree(w, after[InFlight(c)])
            else after == w.holders
  {
    NextPairIsLowestFree(w);
    hide NextPair, Inv, IsLowestFree;
    if NextPair(w).Some? {
      var after := w.holders[InFlight(c) := NextPair(w).value];
      assert after - {InFlight(c)} == w.holders;
    }
  }

  // What each step does to who holds which pair: an allocation takes the lowest free ports
  // while fewer pairs are out than either range has ports, a failed one and a finished stop
  // give theirs back, and the rest pass a pair on.
  lemma StepMovesOnePair(w: World, s: Step)
    requires Inv(w) && Enabled(w, s)
    ensures var after := Apply(w, s).holders;
            match s
            case Begin(c) =>
              if |w.holders| < w.udpRange.hi - w.udpRange.lo + 1 && |w.holders| < w.tcpRange.hi - w.tcpRange.lo + 1
              then InFlight(c) in after && after - {InFlight(c)} == w.holders && IsLowestFree(w, after[InFlight(c)])
              else after == w.holders
            case Abort(c) => after == w.holders - {InFlight(c)}
            case Track(c, id) => after == Passed(w.holders, InFlight(c), Tracked(id))
            case Unhook(c, id) =>
              after == if Tracked(id) !in w.holders then w.holders
                       else Passed(w.holders, Tracked(id), Stopping(c))
            case Finish(c) => after == w.holders - {Stopping(c)}
  {
    hide Inv, IsLowestFree, NextPair, Give;
    match s
    case Begin(c) =>
      hide Apply;
      BeginTakesAPair(w, c);
    case _ =>
  }

  // However allocations and stops interleave, no port is ever held twice and none
  // is in use without a holder.
  lemma {:induction false} RunsKeepInv(udpRange: Range, tcpRange: Range, steps: seq<Step>)
    requires udpRange.Valid() && tcpRange.Valid()
    ensures Inv(Run(Fresh(udpRange, tcpRange), steps))
  {
    if steps != [] {
      var before := Run(Fresh(udpRange, tcpRange), steps[..|steps| - 1]);
      RunsKeepInv(udpRange, tcpRange, steps[..|steps| - 1]);
      if Enabled(before, steps[|steps| - 1]) {
        StepKeepsInv(before, steps[|steps| - 1]);
      }
    }
  }

  lemma {:induction false} PortsAreTheRange(r: Range, i: int)
    ensures i in r.Ports() <==> r.Has(i)
    decreases r.hi - r.lo
  {
    if r.lo <= r.hi {
      PortsAreTheRange(Range(r.lo + 1, r.hi), i);
    }
  }

  lemma {:induction false} RangeSize(r: Range)
    requires r.lo <= r.hi + 1
    ensures |r.Ports()| == r.Size()
    decreases r.hi - r.lo
  {
    if r.lo <= r.hi {
      RangeSize(Range(r.lo + 1, r.hi));
      PortsAreTheRange(Range(r.lo + 1, r.hi), r.lo);
    }
  }

  lemma PoolIsFullExactlyWhen(r: Range, inUse: set<int>)
    requires r.Valid() && forall i :: i in inUse ==> r.Has(i)
    ensures FirstFree(r.lo, r.hi, inUse) == 0 <==> |inUse| >= r.Size()
  {
    hide Range.Ports, FirstFree;
    var ports, free := r.Ports(), FirstFree(r.lo, r.hi, inUse);
    RangeSize(r);
    FirstFreeIsFree(r.lo, r.hi, inUse);
    forall i | i in inUse ensures i in ports {
      PortsAreTheRange(r, i);
    }
    var left := ports - inUse;
    assert ports == inUse + left;
    assert |ports| == |inUse| + |left|;
    if free != 0 {
      PortsAreTheRange(r, free);
      assert free in left;
    } else {
      forall i | i in ports ensures i in inUse {
        PortsAreTheRange(r, i);
      }
      assert left == {};
    }
  }

  // Allocation fails exactly when as many pairs are out as the smaller range has ports.
  lemma AllocateFailsExactlyWhen(w: World)
    requires Inv(w)
    ensures NextPair(w).None? <==> |w.holders| >= w.udpRange.Size() || |w.holders| >= w.tcpRange.Size()
  {
    PoolIsFullExactlyWhen(w.udpRange, w.udp);
    PoolIsFullExactlyWhen(w.tcpRange, w.tcp);
  }

  function Stop(w: World, call: nat, requestId: string): World
    requires Stopping(call) !in w.holders
  {
    Apply(Apply(w, Unhook(call, requestId)), Finish(call))
  }

  // Stopping a match again changes nothing, and a pair goes back to the pool once.
  lemma StopIsIdempotent(w: World, call: nat, again: nat, requestId: string)
    requires Inv(w) && Stopping(call) !in w.holders && Stopping(again) !in w.holders
    ensures Stop(Stop(w, call, requestId), again, requestId) == Stop(w, call, requestId)
    ensures Tracked(requestId) in w.holders ==>
              Stop(w, call, requestId) == Free(w, Tracked(requestId))
  {
    if Tracked(requestId) in w.holders {
      var moved := Move(w, Tracked(requestId), Stopping(call));
      assert moved.holders - {Stopping(call)} == w.holders - {Tracked(requestId)};
    }
  }

  class LocalDockerAllocator {
    const udpRange: Range
    const tcpRange: Range
    var udpInUse: set<int>
    var tcpInUse: set<int>
    var allocPorts: map<string, Pair>
    ghost var holders: map<Holder, Pair>

    ghost function State(): World
      reads this
    {
      World(udpRange, tcpRange, udpInUse, tcpInUse, holders)
    }

    // The tracked map is the holders' share that running matches have.
    ghost predicate TracksHolders()
      reads this
    {
      forall id :: (id in allocPorts <==> Tracked(id) in holders)
                   && (id in allocPorts ==> allocPorts[id] == holders[Tracked(id)])
    }

    ghost predicate Valid()
      reads this
    {
      Inv(State()) && TracksHolders()
    }

    constructor (udpRange: Range, tcpRange: Range)
      requires udpRange.Valid() && tcpRange.Valid()
      ensures Valid() && State() == Fresh(udpRange, tcpRange)
    {
      this.udpRange, this.tcpRange := udpRange, tcpRange;
      udpInUse, tcpInUse, allocPorts, holders := {}, {}, map[], map[];
    }

    method FindFree(lo: int, hi: int, inUse: set<int>) returns (port: int)
      ensures port == FirstFree(lo, hi, inUse)
    {
      var i := lo;
      while i <= hi
        invariant FirstFree(lo, hi, inUse) == FirstFree(i, hi, inUse)
      {
        if i !in inUse {
          return i;
        }
        i := i + 1;
      }
      return 0;
    }

    method AllocatePair(ghost call: nat) returns (pair: Option<Pair>)
      requires Valid() && Enabled(State(), Begin(call))
      modifies this
      ensures Valid() && State() == Apply(old(State()), Begin(call))
      ensures pair == NextPair(old(State()))
    {
      hide Inv;
      StepKeepsInv(State(), Begin(call));
      var udp := FindFree(udpRange.lo, udpRange.hi, udpInUse);
      if udp == 0 {
        return None;
      }
      var tcp := FindFree(tcpRange.lo, tcpRange.hi, tcpInUse);
      if tcp == 0 {
        return None;
      }
      udpInUse := udpInUse + {udp};
      tcpInUse := tcpInUse + {tcp};
      holders := holders[InFlight(call) := Pair(udp, tcp)];
      return Some(Pair(udp, tcp));
    }

    // Gives back the pair of an allocation that failed or a stop that went through.
    method Release(pair: Pair, ghost holder: Holder)
      requires Valid() && holder in holders && holders[holder] == pair && !holder.Tracked?
      modifies this
      ensures Valid() && State() == Free(old(State()), holder) && allocPorts == old(allocPorts)
    {
      hide Inv;
      FreeKeepsInv(State(), holder);
      udpInUse := udpInUse - {pair.udp};
      tcpInUse := tcpInUse - {pair.tcp};
      holders := holders - {holder};
    }

    method TrackPorts(requestId: string, pair: Pair, ghost call: nat)
      requires Valid() && Enabled(State(), Track(call, requestId)) && holders[InFlight(call)] == pair
      modifies this
      ensures Valid() && State() == Apply(old(State()), Track(call, requestId))
    {
      hide Inv;
      StepKeepsInv(State(), Track(call, requestId));
      allocPorts := allocPorts[requestId := pair];
      holders := (holders - {InFlight(call)})[Tracked(requestId) := pair];
    }

    // Takes the pair off its match, under the lock of the tracked map only.
    method UnhookPorts(requestId: string, ghost call: nat) returns (pair: Option<Pair>)
      requires Valid() && Enabled(State(), Unhook(call, requestId))
      modifies this
      ensures Valid() && State() == Apply(old(State()), Unhook(call, requestId))
      ensures pair.Some? <==> Tracked(requestId) in old(holders)
      ensures pair.Some? ==> Stopping(call) in holders && holders[Stopping(call)] == pair.value
    {
      hide Inv;
      StepKeepsInv(State(), Unhook(call, requestId));
      if requestId !in allocPorts {
        return None;
      }
      pair := Some(allocPorts[requestId]);
      allocPorts := allocPorts - {requestId};
      holders := (holders - {Tracked(requestId)})[Stopping(call) := pair.value];
    }

    method ReleasePortsFor(requestId: string, ghost call: nat) returns (released: bool)
      requires Valid() && Enabled(State(), Unhook(call, requestId))
      modifies this
      ensures Valid() && State() == Stop(old(State()), call, requestId)
      ensures released <==> Tracked(requestId) in old(holders)
    {
      hide Inv;
      var pair := UnhookPorts(requestId, call);
      if pair.None? {
        return false;
      }
      Release(pair.value, Stopping(call));
      return true;
    }

    // The ports go back unless Docker fails with anything but a missing container.
    method StopMatch(requestId: string, dockerFails: bool, ghost call: nat) returns (ok: bool)
      requires Valid() && Enabled(State(), Unhook(call, requestId))
      modifies this
      ensures Valid() && ok == !dockerFails
      ensures State() == if ok then Stop(old(State()), call, requestId) else old(State())
    {
      if dockerFails {
        return false;
      }
      var _ := ReleasePortsFor(requestId, call);
      return true;
    }
  }
}
