/** The zones of a zoned namespace: their states, write pointers and the counts of open and active
    zones, under zone management, writes and appends, on zones opened without a random write area. */
module Zns {
  import opened Collections
  import opened Radix

  datatype ZoneState = EMPTY | OPENED_IMPL | OPENED_EXPL | CLOSED | READ_ONLY | FULL | OFFLINE

  datatype Status = Success | InvalidTransition | NoActiveZone | NoOpenZone | InvalidWrite | ErrBoundary
                  | ErrFull | ErrReadOnly | ErrOffline | InvalidZoneOperation

  datatype Action = Close | Finish | Open | Reset | Offline | FlushZrwa

  predicate IsOpen(s: ZoneState) {
    s == OPENED_IMPL || s == OPENED_EXPL
  }

  predicate IsActive(s: ZoneState) {
    IsOpen(s) || s == CLOSED
  }

  /** How many zones are open, and how many active. */
  function Opens(s: seq<ZoneState>): (n: nat)
    ensures n <= |s|
  {
    if s == [] then 0 else Opens(s[..|s| - 1]) + One(IsOpen(s[|s| - 1]))
  }

  function Actives(s: seq<ZoneState>): (n: nat)
    ensures n <= |s|
  {
    if s == [] then 0 else Actives(s[..|s| - 1]) + One(IsActive(s[|s| - 1]))
  }

  lemma {:induction false} CountsChange(s: seq<ZoneState>, i: nat, v: ZoneState)
    requires i < |s|
    ensures Opens(s[i := v]) + One(IsOpen(s[i])) == Opens(s) + One(IsOpen(v))
    ensures Actives(s[i := v]) + One(IsActive(s[i])) == Actives(s) + One(IsActive(v))
    ensures One(IsOpen(s[i])) <= Opens(s) && One(IsActive(s[i])) <= Actives(s)
  {
    var n := |s| - 1;
    var t := s[i := v];
    if i < n {
      CountsChange(s[..n], i, v);
      assert t[..n] == s[..n][i := v];
    } else {
      assert t[..n] == s[..n];
    }
  }

  /** A zone that is not active leaves room among as many resources as zones. */
  lemma {:induction false} InactiveLeavesRoom(s: seq<ZoneState>, i: nat)
    requires i < |s|
    ensures !IsActive(s[i]) ==> Actives(s) < |s|
    ensures !IsOpen(s[i]) ==> Opens(s) < |s|
  {
    if i < |s| - 1 { InactiveLeavesRoom(s[..|s| - 1], i); }
  }

  lemma {:induction false} AllEmpty(s: seq<ZoneState>)
    requires forall i :: 0 <= i < |s| ==> s[i] == EMPTY
    ensures Opens(s) == Actives(s) == 0
  {
    if s != [] { AllEmpty(s[..|s| - 1]); }
  }

  // ---- what a command does to one zone ----

  /** The state a management action leaves a zone in, given which resources have run out, and the
      status it returns (section 2.1.1 of the Zoned Namespace Command Set specification). */
  function Managed(a: Action, s: ZoneState, noActive: bool, noOpen: bool): (ZoneState, Status) {
    match a
    case Close => if IsOpen(s) then (CLOSED, Success) else if s == CLOSED then (s, Success) else (s, InvalidTransition)
    case Finish => if s == READ_ONLY || s == OFFLINE then (s, InvalidTransition) else (FULL, Success)
    case Open =>
      if s == EMPTY && noActive then (s, NoActiveZone)
      else if (s == EMPTY || s == CLOSED) && noOpen then (s, NoOpenZone)
      else if s == EMPTY || IsActive(s) then (OPENED_EXPL, Success)
      else (s, InvalidTransition)
    case Reset => if s == READ_ONLY || s == OFFLINE then (s, InvalidTransition) else (EMPTY, Success)
    case Offline => if s == READ_ONLY then (OFFLINE, Success) else if s == OFFLINE then (s, Success)
                    else (s, InvalidTransition)
    case FlushZrwa => (s, InvalidZoneOperation)
  }

  /** Opening all zones: every zone that can be is explicitly open, unless a resource it needs has run
      out by the end; the others are as they were. */
  predicate Opened(was: ZoneState, s: ZoneState, noActive: bool, noOpen: bool) {
    if IsOpen(was) then s == OPENED_EXPL
    else if was == CLOSED then s == OPENED_EXPL || (s == was && noOpen)
    else if was == EMPTY then s == OPENED_EXPL || (s == was && (noActive || noOpen))
    else s == was
  }

  /** The first z zones have been opened so, the others not yet. */
  ghost predicate OpenedTo(was: seq<ZoneState>, s: seq<ZoneState>, z: nat, totalActive: nat, totalOpen: nat) {
    && |s| == |was|
    && (forall x :: 0 <= x < z && x < |s| ==> Opened(was[x], s[x], Actives(s) == totalActive, Opens(s) == totalOpen))
    && (forall x :: z <= x < |s| ==> s[x] == was[x])
  }

  /** Opening never gives a resource back, so what has run out stays so. */
  lemma OpenNext(was: seq<ZoneState>, s: seq<ZoneState>, z: nat, totalActive: nat, totalOpen: nat)
    requires OpenedTo(was, s, z, totalActive, totalOpen) && z < |s|
    requires Actives(s) <= totalActive && Opens(s) <= totalOpen
    ensures var s' := s[z := Managed(Open, s[z], Actives(s) == totalActive, Opens(s) == totalOpen).0];
            Actives(s') <= totalActive && Opens(s') <= totalOpen ==> OpenedTo(was, s', z + 1, totalActive, totalOpen)
  {
    var v := Managed(Open, s[z], Actives(s) == totalActive, Opens(s) == totalOpen).0;
    CountsChange(s, z, v);
    hide Opens, Actives;
    assert Actives(s[z := v]) >= Actives(s) && Opens(s[z := v]) >= Opens(s);
  }

  /** Why a write of nr blocks at slba to zone z is refused, if it is. */
  function WriteStatus(s: ZoneState, wp: nat, slba: nat, nr: nat, zsz: nat, unit: nat, z: nat, noActive: bool,
                       noOpen: bool): Status
    requires zsz > 0 && unit > 0 && nr > 0
  {
    if nr % unit != 0 then InvalidWrite
    else if slba / zsz != (slba + nr - 1) / zsz then ErrBoundary
    else if slba != wp then InvalidWrite
    else match s
      case EMPTY => if slba != z * zsz then InvalidWrite else if noActive then NoActiveZone
                    else if noOpen then NoOpenZone else Success
      case CLOSED => if noOpen then NoOpenZone else Success
      case OPENED_IMPL => Success
      case OPENED_EXPL => Success
      case FULL => ErrFull
      case READ_ONLY => ErrReadOnly
      case OFFLINE => ErrOffline
  }

  /** The write pointer stays in its zone; an empty zone's is at the start, and at the end the zone
      is full. */
  ghost predicate ZoneOk(s: ZoneState, wp: nat, z: nat, zsz: nat) {
    && z * zsz <= wp <= z * zsz + zsz
    && (s == EMPTY ==> wp == z * zsz) && (wp == z * zsz + zsz ==> s == FULL)
    && s != READ_ONLY && s != OFFLINE
  }

  ghost predicate ZonesOk(s: seq<ZoneState>, wp: seq<nat>, zsz: nat) {
    |s| == |wp| && forall z :: 0 <= z < |s| ==> ZoneOk(s[z], wp[z], z, zsz)
  }

  lemma ZonesSet(s: seq<ZoneState>, wp: seq<nat>, zsz: nat, z: nat, v: ZoneState, w: nat)
    requires ZonesOk(s, wp, zsz) && z < |s| && ZoneOk(v, w, z, zsz)
    ensures ZonesOk(s[z := v], wp[z := w], zsz)
  {
    hide ZoneOk;
  }

  lemma ZoneAt(s: seq<ZoneState>, wp: seq<nat>, zsz: nat, z: nat)
    requires ZonesOk(s, wp, zsz) && z < |s|
    ensures ZoneOk(s[z], wp[z], z, zsz)
  {
  }

  /** Every change of state management makes, its write pointer kept, leaves a sound zone sound. */
  lemma ManagedOk(a: Action, s: ZoneState, wp: nat, z: nat, zsz: nat, noActive: bool, noOpen: bool)
    requires zsz > 0 && ZoneOk(s, wp, z, zsz) && a != Reset
    ensures ZoneOk(Managed(a, s, noActive, noOpen).0, wp, z, zsz)
  {
  }

  lemma ZoneOf(lba: nat, z: nat, zsz: nat)
    requires zsz > 0 && z * zsz <= lba < z * zsz + zsz
    ensures lba / zsz == z
  {
    DivUnique(lba, zsz, z, lba - z * zsz);
  }

  lemma ZoneEnd(lba: nat, z: nat, zsz: nat)
    requires zsz > 0 && lba / zsz == z
    ensures z * zsz <= lba < z * zsz + zsz
  {
    var q, r := DivMod(lba, zsz);
  }

  /** A write that is let in fits its zone, and keeps the zone sound whether or not it fills it. */
  lemma WriteFits(s: ZoneState, wp: nat, slba: nat, nr: nat, zsz: nat, unit: nat, z: nat, noActive: bool, noOpen: bool)
    requires zsz > 0 && unit > 0 && nr > 0 && ZoneOk(s, wp, z, zsz)
    requires WriteStatus(s, wp, slba, nr, zsz, unit, z, noActive, noOpen) == Success
    ensures slba == wp && wp + nr <= z * zsz + zsz && s != FULL
    ensures ZoneOk(if wp + nr == z * zsz + zsz then FULL else if IsOpen(s) then s else OPENED_IMPL, wp + nr, z, zsz)
  {
    ZoneOf(wp, z, zsz);
    ZoneEnd(slba + nr - 1, z, zsz);
  }

  /** A write at the write pointer of a zone that is not full stays within it exactly when it does not
      reach over the zone's end. */
  lemma InZone(wp: nat, nr: nat, z: nat, zsz: nat)
    requires zsz > 0 && nr > 0 && z * zsz <= wp < z * zsz + zsz
    ensures wp / zsz == (wp + nr - 1) / zsz <==> wp + nr <= z * zsz + zsz
  {
    ZoneOf(wp, z, zsz);
    if wp + nr <= z * zsz + zsz { ZoneOf(wp + nr - 1, z, zsz); }
    if wp / zsz == (wp + nr - 1) / zsz { ZoneEnd(wp + nr - 1, z, zsz); }
  }

  /** When a write goes through, and why it does not: in this order, it is not of whole units, it crosses
      a zone boundary, it is not at the write pointer, the zone takes none, or a resource the zone needs
      has run out. */
  lemma WriteStatusIs(s: ZoneState, wp: nat, slba: nat, nr: nat, zsz: nat, unit: nat, z: nat, noActive: bool,
                      noOpen: bool)
    requires zsz > 0 && unit > 0 && nr > 0 && z * zsz <= wp <= z * zsz + zsz
    requires (s == EMPTY ==> wp == z * zsz) && (wp == z * zsz + zsz ==> s == FULL)
    ensures var status := WriteStatus(s, wp, slba, nr, zsz, unit, z, noActive, noOpen);
            var here := nr % unit == 0 && slba / zsz == (slba + nr - 1) / zsz && slba == wp;
            && (status == Success <==> nr % unit == 0 && slba == wp && wp + nr <= z * zsz + zsz
                                       && (IsOpen(s) || (s == CLOSED && !noOpen)
                                           || (s == EMPTY && !noActive && !noOpen)))
            && (status == ErrBoundary <==> nr % unit == 0 && slba / zsz != (slba + nr - 1) / zsz)
            && (status == InvalidWrite <==>
                nr % unit != 0 || (slba / zsz == (slba + nr - 1) / zsz && slba != wp))
            && (status == ErrFull <==> here && s == FULL) && (status == ErrReadOnly <==> here && s == READ_ONLY)
            && (status == ErrOffline <==> here && s == OFFLINE)
            && (status == NoActiveZone <==> here && s == EMPTY && noActive)
            && (status == NoOpenZone <==> here && noOpen && (s == CLOSED || (s == EMPTY && !noActive)))
  {
    if slba == wp && s != FULL { InZone(wp, nr, z, zsz); }
  }

  // ---- the zones in memory ----

  class Zones {
    const nr: nat
    /** Blocks per zone, and per program unit. */
    const zsz: nat
    const unit: nat
    const totalActive: nat
    const totalOpen: nat
    const state: array<ZoneState>
    const wp: array<nat>
    var activeCnt: nat
    var openCnt: nat

    /** The counters are the numbers of zones in those states, within their totals; every zone is
        sound. */
    ghost predicate Valid()
      reads this, state, wp
    {
      && 0 < zsz && 0 < unit && state.Length == wp.Length == nr
      && activeCnt == Actives(state[..]) <= totalActive && openCnt == Opens(state[..]) <= totalOpen
      && ZonesOk(state[..], wp[..], zsz)
    }

    /** What zone z may be turned into, with its write pointer kept. */
    lemma Turn(a: Action, z: nat, noActive: bool, noOpen: bool)
      requires Valid() && z < nr && a != Reset
      ensures ZonesOk(state[..][z := Managed(a, state[z], noActive, noOpen).0], wp[..], zsz)
      ensures One(IsOpen(state[z])) <= openCnt && One(IsActive(state[z])) <= activeCnt
    {
      hide ZoneOk, Managed;
      CountsChange(state[..], z, state[z]);
      ZoneAt(state[..], wp[..], zsz, z);
      ManagedOk(a, state[z], wp[z], z, zsz, noActive, noOpen);
      ZonesSet(state[..], wp[..], zsz, z, Managed(a, state[z], noActive, noOpen).0, wp[z]);
      assert wp[..][z := wp[z]] == wp[..];
    }

    /** __init_descriptor and __init_resource: every zone empty, as many resources as zones. */
    constructor (zones: nat, blocks: nat, writeUnit: nat)
      requires blocks > 0 && writeUnit > 0
      ensures Valid() && nr == zones && zsz == blocks && unit == writeUnit && totalActive == totalOpen == zones
      ensures forall z :: 0 <= z < zones ==> state[z] == EMPTY && wp[z] == z * blocks
    {
      nr, zsz, unit, totalActive, totalOpen := zones, blocks, writeUnit, zones, zones;
      state := new ZoneState[zones](i => EMPTY);
      wp := new nat[zones](i requires 0 <= i => i * blocks);
      activeCnt, openCnt := 0, 0;
      new;
      AllEmpty(state[..]);
    }

    /** change_zone_state. The counters are the caller's to adjust. */
    method ChangeState(z: nat, s: ZoneState)
      requires z < state.Length
      modifies state
      ensures state[..] == old(state[..])[z := s]
      ensures Opens(state[..]) + One(IsOpen(old(state[z]))) == Opens(old(state[..])) + One(IsOpen(s))
      ensures Actives(state[..]) + One(IsActive(old(state[z]))) == Actives(old(state[..])) + One(IsActive(s))
    {
      CountsChange(state[..], z, s);
      state[z] := s;
    }

    /** Only zone z changed, to state s, its write pointer kept. */
    twostate predicate Became(z: nat, s: ZoneState)
      requires z < state.Length
      reads state, wp
    {
      state[..] == old(state[..])[z := s] && wp[..] == old(wp[..])
    }

    method CloseZone(z: nat) returns (status: Status)
      requires Valid() && z < nr
      modifies state, `openCnt
      ensures Valid() && status == Managed(Close, old(state[z]), false, false).1
      ensures Became(z, Managed(Close, old(state[z]), false, false).0)
      ensures if IsActive(old(state[z])) then status == Success && state[z] == CLOSED
              else status == InvalidTransition && state[z] == old(state[z])
    {
      hide ZonesOk, Opens, Actives;
      Turn(Close, z, false, false);
      var cur := state[z];
      status := Success;
      match cur {
        case OPENED_IMPL =>
          ChangeState(z, CLOSED);
          openCnt := openCnt - 1;
        case OPENED_EXPL =>
          ChangeState(z, CLOSED);
          openCnt := openCnt - 1;
        case CLOSED =>
        case _ => status := InvalidTransition;
      }
    }

    method FinishZone(z: nat) returns (status: Status)
      requires Valid() && z < nr
      modifies state, `openCnt, `activeCnt
      ensures Valid() && status == Managed(Finish, old(state[z]), false, false).1
      ensures Became(z, Managed(Finish, old(state[z]), false, false).0) && status == Success && state[z] == FULL
    {
      hide ZonesOk, Opens, Actives;
      ZoneAt(state[..], wp[..], zsz, z);
      Turn(Finish, z, false, false);
      var cur := state[z];
      status := Success;
      match cur {
        case OPENED_IMPL =>
          openCnt, activeCnt := openCnt - 1, activeCnt - 1;
          ChangeState(z, FULL);
        case OPENED_EXPL =>
          openCnt, activeCnt := openCnt - 1, activeCnt - 1;
          ChangeState(z, FULL);
        case CLOSED =>
          activeCnt := activeCnt - 1;
          ChangeState(z, FULL);
        case EMPTY =>
          ChangeState(z, FULL);
        case FULL =>
        case _ => status := InvalidTransition;
      }
    }

    method OpenZone(z: nat) returns (status: Status)
      requires Valid() && z < nr
      modifies state, `openCnt, `activeCnt
      ensures Valid()
      ensures var m := Managed(Open, old(state[z]), old(activeCnt) == totalActive, old(openCnt) == totalOpen);
              status == m.1 && Became(z, m.0)
      ensures status == Success <==>
              || IsOpen(old(state[z])) || (old(state[z]) == CLOSED && old(openCnt) < totalOpen)
              || (old(state[z]) == EMPTY && old(activeCnt) < totalActive && old(openCnt) < totalOpen)
      ensures state[z] == if status == Success then OPENED_EXPL else old(state[z])
      ensures status == InvalidTransition <==> old(state[z]) == FULL
      ensures status == NoActiveZone <==> old(state[z]) == EMPTY && old(activeCnt) == totalActive
    {
      hide ZonesOk, Opens, Actives;
      ZoneAt(state[..], wp[..], zsz, z);
      Turn(Open, z, activeCnt == totalActive, openCnt == totalOpen);
      var cur := state[z];
      status := Success;
      match cur {
        case EMPTY =>
          if activeCnt == totalActive { return NoActiveZone; }
          if openCnt == totalOpen { return NoOpenZone; }
          activeCnt, openCnt := activeCnt + 1, openCnt + 1;
          ChangeState(z, OPENED_EXPL);
        case CLOSED =>
          if openCnt == totalOpen { return NoOpenZone; }
          openCnt := openCnt + 1;
          ChangeState(z, OPENED_EXPL);
        case OPENED_IMPL =>
          ChangeState(z, OPENED_EXPL);
        case OPENED_EXPL =>
        case _ => status := InvalidTransition;
      }
    }

    method ResetZone(z: nat) returns (status: Status)
      requires Valid() && z < nr
      modifies state, wp, `openCnt, `activeCnt
      ensures Valid() && status == Managed(Reset, old(state[z]), false, false).1
      ensures state[..] == old(state[..])[z := Managed(Reset, old(state[z]), false, false).0]
      ensures wp[..] == old(wp[..])[z := z * zsz] && status == Success && state[z] == EMPTY
    {
      hide ZonesOk, Opens, Actives;
      CountsChange(state[..], z, state[z]);
      Restart(z);
      var cur := state[z];
      if cur == READ_ONLY || cur == OFFLINE {
        status := InvalidTransition;
      } else {
        if IsOpen(cur) { openCnt := openCnt - 1; }
        if IsActive(cur) { activeCnt := activeCnt - 1; }
        ChangeState(z, EMPTY);
        wp[z] := z * zsz;
        status := Success;
      }
    }

    lemma Restart(z: nat)
      requires Valid() && z < nr
      ensures ZonesOk(state[..][z := EMPTY], wp[..][z := z * zsz], zsz) && state[z] != READ_ONLY && state[z] != OFFLINE
    {
      ZoneAt(state[..], wp[..], zsz, z);
      ZonesSet(state[..], wp[..], zsz, z, EMPTY, z * zsz);
    }

    /** No zone is ever read-only, so none can be taken offline. */
    method OfflineZone(z: nat) returns (status: Status)
      requires Valid() && z < nr
      ensures status == Managed(Offline, state[z], false, false).1 == InvalidTransition
              && Managed(Offline, state[z], false, false).0 == state[z]
    {
      status := InvalidTransition;
    }

    /** __zmgmt_send for the zone of a block. */
    method ManageZone(a: Action, slba: nat) returns (status: Status)
      requires Valid() && slba / zsz < nr
      modifies this, state, wp
      ensures Valid()
      ensures var z := slba / zsz;
              var m := Managed(a, old(state[z]), old(activeCnt) == totalActive, old(openCnt) == totalOpen);
              status == m.1 && state[..] == old(state[..])[z := m.0]
              && wp[..] == (if a == Reset then old(wp[..])[z := z * zsz] else old(wp[..]))
    {
      var z := slba / zsz;
      match a {
        case Close => status := CloseZone(z);
        case Finish => status := FinishZone(z);
        case Open => status := OpenZone(z);
        case Reset => status := ResetZone(z);
        case Offline => status := OfflineZone(z);
        case FlushZrwa => status := InvalidZoneOperation;
      }
    }

    /** zns_zmgmt_send with all zones selected: each zone is managed in turn, its own outcome
        ignored. A reset leaves every zone empty at its start, a finish every one full; a close closes
        the open ones, and an open opens every zone there are resources for. Nothing else changes. */
    method ManageAll(a: Action)
      requires Valid()
      modifies this, state, wp
      ensures Valid()
      ensures a == Reset ==> forall z :: 0 <= z < nr ==> state[z] == EMPTY && wp[z] == z * zsz
      ensures a == Finish ==> forall z :: 0 <= z < nr ==> state[z] == FULL
      ensures a == Close ==> openCnt == 0 && forall z :: 0 <= z < nr ==>
                                               state[z] == if IsOpen(old(state[z])) then CLOSED else old(state[z])
      ensures (a != Reset ==> wp[..] == old(wp[..])) && (a == Offline || a == FlushZrwa ==> state[..] == old(state[..]))
      ensures a == Open ==> forall z :: 0 <= z < nr ==>
                Opened(old(state[z]), state[z], activeCnt == totalActive, openCnt == totalOpen)
    {
      hide Opens, Actives;
      var z := 0;
      ghost var was := state[..];
      while z < nr
        invariant z <= nr && Valid()
        invariant a == Reset ==> forall x :: 0 <= x < z ==> state[x] == EMPTY && wp[x] == x * zsz
        invariant a == Finish ==> forall x :: 0 <= x < z ==> state[x] == FULL
        invariant a == Close ==> forall x :: 0 <= x < nr ==>
                    state[x] == if x < z && IsOpen(was[x]) then CLOSED else was[x]
        invariant (a != Reset ==> wp[..] == old(wp[..])) && (a == Offline || a == FlushZrwa ==> state[..] == was)
        invariant a == Open ==> OpenedTo(was, state[..], z, totalActive, totalOpen)
      {
        if a == Open { OpenNext(was, state[..], z, totalActive, totalOpen); }
        ZoneOf(z * zsz, z, zsz);
        var _ := ManageZone(a, z * zsz);
        z := z + 1;
      }
      if a == Close { NoneOpen(state[..]); }
    }

    /** __increase_write_ptr on an open zone with room: written to its end, the zone becomes full and
        gives its resources back. */
    method IncreaseWp(z: nat, n: nat)
      requires Valid() && z < nr && n > 0 && IsOpen(state[z]) && wp[z] + n <= z * zsz + zsz
      modifies state, wp, `activeCnt, `openCnt
      ensures Valid() && wp[..] == old(wp[..])[z := old(wp[z]) + n]
      ensures state[..] == old(state[..])[z := if old(wp[z]) + n == z * zsz + zsz then FULL else old(state[z])]
    {
      hide ZonesOk, Opens, Actives;
      CountsChange(state[..], z, state[z]);
      Moved(z, n);
      ghost var was := state[..];
      wp[z] := wp[z] + n;
      if wp[z] == z * zsz + zsz {
        openCnt, activeCnt := openCnt - 1, activeCnt - 1;
        ChangeState(z, FULL);
      }
      assert was[z := was[z]] == was;
    }

    lemma Moved(z: nat, n: nat)
      requires Valid() && z < nr && n > 0 && IsOpen(state[z]) && wp[z] + n <= z * zsz + zsz
      ensures ZonesOk(state[..][z := if wp[z] + n == z * zsz + zsz then FULL else state[z]], wp[..][z := wp[z] + n],
                      zsz)
    {
      ZoneAt(state[..], wp[..], zsz, z);
      ZonesSet(state[..], wp[..], zsz, z, if wp[z] + n == z * zsz + zsz then FULL else state[z], wp[z] + n);
    }

    /** __zns_write up to the write pointer's move: refused with nothing changed, or the zone open. */
    method Admit(z: nat, slba: nat, n: nat) returns (status: Status)
      requires Valid() && n > 0 && z < nr
      modifies state, `activeCnt, `openCnt
      ensures Valid() && wp[..] == old(wp[..])
      ensures status == WriteStatus(old(state[z]), wp[z], slba, n, zsz, unit, z, old(activeCnt) == totalActive,
                                    old(openCnt) == totalOpen)
      ensures state[..] == if status == Success && !IsOpen(old(state[z])) then old(state[..])[z := OPENED_IMPL]
                           else old(state[..])
      ensures status == Success ==> IsOpen(state[z])
    {
      hide ZonesOk, Opens, Actives;
      if n % unit != 0 { return InvalidWrite; }
      if slba / zsz != (slba + n - 1) / zsz { return ErrBoundary; }
      if slba != wp[z] { return InvalidWrite; }
      status := Success;
      match state[z] {
        case EMPTY =>
          if slba != z * zsz { return InvalidWrite; }
          if activeCnt == totalActive { return NoActiveZone; }
          if openCnt == totalOpen { return NoOpenZone; }
          Opening(z);
          activeCnt, openCnt := activeCnt + 1, openCnt + 1;
          ChangeState(z, OPENED_IMPL);
        case CLOSED =>
          if openCnt == totalOpen { return NoOpenZone; }
          Opening(z);
          openCnt := openCnt + 1;
          ChangeState(z, OPENED_IMPL);
        case OPENED_IMPL =>
        case OPENED_EXPL =>
        case FULL => return ErrFull;
        case READ_ONLY => return ErrReadOnly;
        case OFFLINE => return ErrOffline;
      }
    }

    lemma Opening(z: nat)
      requires Valid() && z < nr && (state[z] == EMPTY || state[z] == CLOSED)
      ensures ZonesOk(state[..][z := OPENED_IMPL], wp[..], zsz)
    {
      ZoneAt(state[..], wp[..], zsz, z);
      ZonesSet(state[..], wp[..], zsz, z, OPENED_IMPL, wp[z]);
      assert wp[..][z := wp[z]] == wp[..];
    }

    /** The write once the buffer has room for it. */
    method WriteNow(z: nat, slba: nat, n: nat) returns (status: Status)
      requires Valid() && n > 0 && z < nr
      modifies state, wp, `activeCnt, `openCnt
      ensures Valid() && ZoneOk(old(state[z]), old(wp[z]), z, zsz)
      ensures status == WriteStatus(old(state[z]), old(wp[z]), slba, n, zsz, unit, z, old(activeCnt) == totalActive,
                                    old(openCnt) == totalOpen)
      ensures status != Success ==> state[..] == old(state[..]) && wp[..] == old(wp[..])
      ensures status == Success ==>
                && slba == old(wp[z]) && slba + n <= z * zsz + zsz && wp[..] == old(wp[..])[z := slba + n]
                && state[..] == old(state[..])[z := if slba + n == z * zsz + zsz then FULL
                                                    else if IsOpen(old(state[z])) then old(state[z]) else OPENED_IMPL]
    {
      hide ZonesOk, Opens, Actives, WriteStatus, ZoneOk;
      Fits(z, slba, n);
      status := Admit(z, slba, n);
      if status == Success { IncreaseWp(z, n); }
    }

    /** __zns_write for a write at lba, or an append to its zone: put off when the write buffer has no
        room for it, refused with nothing changed, or written at the write pointer, which moves by
        exactly the blocks written. */
    method Write(lba: nat, n: nat, isAppend: bool, bufferOk: bool) returns (done: bool, status: Status, slba: nat)
      requires Valid() && n > 0 && lba / zsz < nr
      modifies state, wp, `activeCnt, `openCnt
      ensures Valid() && slba == (if isAppend then old(wp[lba / zsz]) else lba) && (done <==> bufferOk)
      ensures done ==> var z, s, noOpen := lba / zsz, old(state[lba / zsz]), old(openCnt) == totalOpen;
              var here := n % unit == 0 && slba / zsz == (slba + n - 1) / zsz && slba == old(wp[z]);
              && (status == Success <==>
                  n % unit == 0 && slba == old(wp[z]) && slba + n <= z * zsz + zsz
                  && (IsOpen(s) || (s == CLOSED && !noOpen) || (s == EMPTY && old(activeCnt) < totalActive && !noOpen)))
              && (status == ErrBoundary <==> n % unit == 0 && slba / zsz != (slba + n - 1) / zsz)
              && (status == InvalidWrite <==>
                  n % unit != 0 || (slba / zsz == (slba + n - 1) / zsz && slba != old(wp[z])))
              && (status == ErrFull <==> here && s == FULL)
              && (status == NoActiveZone <==> here && s == EMPTY && old(activeCnt) == totalActive)
              && (status == NoOpenZone <==> here && noOpen && (s == CLOSED
                                                               || (s == EMPTY && old(activeCnt) < totalActive)))
      ensures var z := lba / zsz;
              var fits := n % unit == 0 && slba == old(wp[z]) && slba + n <= z * zsz + zsz && old(state[z]) != FULL;
              done && fits && totalActive == totalOpen == nr ==> status == Success
      ensures !done || status != Success ==> state[..] == old(state[..]) && wp[..] == old(wp[..])
      ensures done && status == Success ==> var z := lba / zsz;
              && slba == old(wp[z]) && slba + n <= z * zsz + zsz && wp[..] == old(wp[..])[z := slba + n]
              && state[z] == (if slba + n == z * zsz + zsz then FULL else if IsOpen(old(state[z])) then old(state[z])
                              else OPENED_IMPL)
              && forall x :: 0 <= x < nr && x != z ==> state[x] == old(state[x])
    {
      hide Valid, WriteStatus;
      Bounds();
      var z := lba / zsz;
      ghost var s, w, noActive, noOpen := state[z], wp[z], activeCnt == totalActive, openCnt == totalOpen;
      slba := if isAppend then wp[z] else lba;
      if !bufferOk { return false, Success, slba; }
      done := true;
      if totalActive == totalOpen == nr { NeverShort(z); }
      status := WriteNow(z, slba, n);
      WriteStatusIs(s, w, slba, n, zsz, unit, z, noActive, noOpen);
    }

    lemma Bounds()
      requires Valid()
      ensures 0 < zsz && 0 < unit && state.Length == wp.Length == nr && activeCnt <= totalActive && openCnt <= totalOpen
    {
      hide ZonesOk, Opens, Actives;
    }

    lemma Fits(z: nat, slba: nat, n: nat)
      requires Valid() && n > 0 && z < nr
      ensures WriteStatus(state[z], wp[z], slba, n, zsz, unit, z, activeCnt == totalActive,
                          openCnt == totalOpen) == Success
              ==> slba == wp[z] && wp[z] + n <= z * zsz + zsz
      ensures ZoneOk(state[z], wp[z], z, zsz)
    {
      hide WriteStatus;
      ZoneAt(state[..], wp[..], zsz, z);
      if WriteStatus(state[z], wp[z], slba, n, zsz, unit, z, activeCnt == totalActive,
                     openCnt == totalOpen) == Success {
        WriteFits(state[z], wp[z], slba, n, zsz, unit, z, activeCnt == totalActive, openCnt == totalOpen);
      }
    }

    /** With as many resources as zones, as the namespace is set up, no command is ever refused for
        want of one. */
    lemma NeverShort(z: nat)
      requires Valid() && z < nr && totalActive == totalOpen == nr
      ensures !IsActive(state[z]) ==> activeCnt < totalActive
      ensures !IsOpen(state[z]) ==> openCnt < totalOpen
    {
      InactiveLeavesRoom(state[..], z);
    }
  }

  lemma {:induction false} NoneOpen(s: seq<ZoneState>)
    requires forall i :: 0 <= i < |s| ==> !IsOpen(s[i])
    ensures Opens(s) == 0
  {
    if s != [] { NoneOpen(s[..|s| - 1]); }
  }
}
