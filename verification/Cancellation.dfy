/**
 The cancellation token of crates/machine-god-core/src/cancel.rs.

 `WaiterRegistries` holds the keyed registry behind the mutex: the wrapping identifier
 search and the three critical sections (register, deregister, take).
 `CancellationProtocol` interleaves those sections with the atomic flag for any number of
 `Cancelled` futures and `cancel` calls, and proves that no wake-up is lost.
 */
module WaiterRegistries {
  import opened Shared

  /** A waker is identified with the task it wakes; `will_wake` compares tasks. */
  type Waker = nat

  /** The identifier `k` wrapping increments after `start`, in an identifier space of the given size. */
  function ProbeAt(start: nat, k: nat, space: nat): (id: nat)
    requires start < space && k <= space
    ensures id < space
  {
    if start + k < space then start + k else start + k - space
  }

  /** How many wrapping increments lead from `start` to the first identifier without an entry. */
  function VacantOffset(keys: set<nat>, start: nat, space: nat, k: nat): (r: Option<nat>)
    requires start < space && k <= space
    ensures r.Some? ==> k <= r.value < space
    decreases space - k
  {
    if k == space then None
    else if ProbeAt(start, k, space) !in keys then Some(k)
    else VacantOffset(keys, start, space, k + 1)
  }

  ghost function Probed(start: nat, k: nat, space: nat): set<nat>
    requires start < space && k <= space
  {
    set j | 0 <= j < k :: ProbeAt(start, j, space)
  }

  /** Probes below the size of the identifier space never meet the same identifier twice. */
  lemma {:induction false} ProbedSize(start: nat, k: nat, space: nat)
    requires start < space && k <= space
    ensures |Probed(start, k, space)| == k
  {
    if k == 0 {
      assert Probed(start, 0, space) == {};
    } else {
      ProbedSize(start, k - 1, space);
      var last := ProbeAt(start, k - 1, space);
      assert last !in Probed(start, k - 1, space);
      assert Probed(start, k, space) == Probed(start, k - 1, space) + {last};
    }
  }

  ghost predicate OffsetFound(keys: set<nat>, start: nat, space: nat, k: nat)
    requires start < space && k < space
  {
    && ProbeAt(start, k, space) !in keys
    && Probed(start, k, space) <= keys
  }

  lemma {:induction false} VacantOffsetMeaning(keys: set<nat>, start: nat, space: nat, k: nat)
    requires start < space && k <= space
    requires Probed(start, k, space) <= keys
    ensures var r := VacantOffset(keys, start, space, k);
            match r
            case Some(found) => k <= found < space && OffsetFound(keys, start, space, found)
            case None => Probed(start, space, space) <= keys
    decreases space - k
  {
    if k < space && ProbeAt(start, k, space) in keys {
      assert Probed(start, k + 1, space) <= keys;
      VacantOffsetMeaning(keys, start, space, k + 1);
    }
  }

  /**
   The search succeeds within |keys| + 1 probes on an unused identifier, and fails exactly
   when every identifier of the space is occupied.
   */
  lemma VacantOffsetBound(keys: set<nat>, start: nat, space: nat)
    requires start < space
    ensures var r := VacantOffset(keys, start, space, 0);
            && (r.Some? ==> r.value < space && r.value <= |keys| && ProbeAt(start, r.value, space) !in keys)
            && (r.None? <==> forall id: nat :: id < space ==> id in keys)
  {
    VacantOffsetMeaning(keys, start, space, 0);
    var r := VacantOffset(keys, start, space, 0);
    match r {
      case Some(k) =>
        ProbedSize(start, k, space);
        SubsetSize(Probed(start, k, space), keys);
      case None =>
        forall id: nat | id < space ensures id in keys {
          var j := if start <= id then id - start else id + space - start;
          assert ProbeAt(start, j, space) == id;
        }
    }
  }

  /** The registry behind the mutex; `space` is 2^64 in the program and any positive size here. */
  class WaiterRegistry {
    const space: nat
    var nextId: nat
    var waiters: map<nat, Waker>

    ghost predicate Valid()
      reads this
    {
      nextId < space && forall id :: id in waiters ==> id < space
    }

    constructor (size: nat)
      requires 0 < size
      ensures Valid() && space == size && nextId == 0 && waiters == map[]
    {
      space, nextId, waiters := size, 0, map[];
    }

    /** None stands for the "identifier space exhausted" assertion firing. */
    method VacantId() returns (id: Option<nat>, probes: nat)
      requires Valid()
      modifies this`nextId
      ensures Valid()
      ensures id == match VacantOffset(waiters.Keys, old(nextId), space, 0)
                    case Some(k) => Some(ProbeAt(old(nextId), k, space))
                    case None => None
      ensures id.Some? ==> id.value < space && id.value !in waiters && probes <= |waiters| + 1
      ensures id.Some? ==> nextId == ProbeAt(id.value, 1, space)
      ensures id.None? <==> forall k: nat :: k < space ==> k in waiters
      ensures id.None? ==> probes == space && nextId == old(nextId)
    {
      var start := nextId;
      ghost var k := 0;
      probes := 0;
      VacantOffsetBound(waiters.Keys, start, space);
      while true
        invariant 0 <= k < space && probes == k
        invariant nextId == ProbeAt(start, k, space)
        invariant VacantOffset(waiters.Keys, start, space, 0) == VacantOffset(waiters.Keys, start, space, k)
        invariant Valid()
        decreases space - k
      {
        var candidate := nextId;
        nextId := if nextId + 1 == space then 0 else nextId + 1;
        probes := probes + 1;
        if candidate !in waiters {
          return Some(candidate), probes;
        }
        k := k + 1;
        if nextId == start {
          assert k == space;
          return None, probes;
        }
      }
    }

    /** The locked section of `register`: reuse or allocate the key, then insert or replace the waker. */
    method Register(waiterId: Option<nat>, waker: Waker) returns (id: Option<nat>)
      requires Valid()
      requires waiterId.Some? ==> waiterId.value < space
      modifies this
      ensures Valid()
      ensures Registered(old(waiters), old(nextId), space, waiterId, waker) == (id, waiters, nextId)
    {
      id := waiterId;
      if id.None? {
        var probes;
        VacantOffsetBound(waiters.Keys, nextId, space);
        id, probes := VacantId();
        if id.None? {
          return;
        }
      }
      if id.value in waiters && waiters[id.value] == waker {
        assert waiters == waiters[id.value := waker];
      } else {
        waiters := waiters[id.value := waker];
      }
    }

    /** The locked section of `deregister`. */
    method Deregister(waiterId: Option<nat>)
      requires Valid()
      modifies this`waiters
      ensures Valid()
      ensures waiters == Deregistered(old(waiters), waiterId)
    {
      if waiterId.Some? {
        waiters := waiters - {waiterId.value};
      }
    }

    /** The locked section of `cancel`. */
    method Take() returns (taken: map<nat, Waker>)
      requires Valid()
      modifies this`waiters
      ensures Valid() && waiters == map[] && taken == old(waiters)
    {
      taken := waiters;
      waiters := map[];
    }
  }

  /** The key a registration uses and the entries it leaves behind. */
  function Registered(waiters: map<nat, Waker>, nextId: nat, space: nat, waiterId: Option<nat>, waker: Waker)
    : (r: (Option<nat>, map<nat, Waker>, nat))
    requires nextId < space
    ensures r.2 < space
  {
    match waiterId
    case Some(id) => (Some(id), waiters[id := waker], nextId)
    case None =>
      match VacantOffset(waiters.Keys, nextId, space, 0)
      case None => (None, waiters, nextId)
      case Some(k) =>
        var id := ProbeAt(nextId, k, space);
        (Some(id), waiters[id := waker], ProbeAt(id, 1, space))
  }

  /** A registration keeps its key, or takes an unused one, and changes no other entry. */
  lemma RegisteredMeaning(waiters: map<nat, Waker>, nextId: nat, space: nat, waiterId: Option<nat>, waker: Waker)
    requires nextId < space
    ensures var (id, entries, _) := Registered(waiters, nextId, space, waiterId, waker);
            && (waiterId.Some? ==> id == waiterId)
            && (id.Some? ==> entries == waiters[id.value := waker])
            && (id.Some? && waiterId.None? ==> id.value !in waiters)
            && (id.None? ==> entries == waiters && forall k: nat :: k < space ==> k in waiters)
  {
    VacantOffsetBound(waiters.Keys, nextId, space);
  }

  function Deregistered(waiters: map<nat, Waker>, waiterId: Option<nat>): (r: map<nat, Waker>)
  {
    match waiterId
    case Some(id) => waiters - {id}
    case None => waiters
  }
}

module CancellationProtocol {
  import opened Shared
  import opened WaiterRegistries

  /** Where the poll or drop of one future stands between two atomic steps. */
  datatype FuturePc =
    | Resting
    | PollCheck(w: Waker)
    | RegisterCheck(w: Waker)
    | RegisterInsert(w: Waker)
    | RegisterRecheck(w: Waker)
    | RegisterDeregister(w: Waker)
    | RegisterWake(w: Waker)
    | PollRecheck(w: Waker)
    | PollDeregister
    | DropDeregister

  datatype LastPoll = Never | Pending(w: Waker) | Ready | Panicked

  datatype Future = Future(id: Option<nat>, pc: FuturePc, last: LastPoll, dropped: bool)

  /** One call of `cancel`: swap the flag, take the entries, wake them one by one, return. */
  datatype Call = Swapping | Taking | Waking(rest: map<nat, Waker>) | Returned(won: bool)

  datatype State = State(
    space: nat,
    cancelled: bool,
    nextId: nat,
    waiters: map<nat, Waker>,
    futures: map<nat, Future>,
    calls: map<nat, Call>,
    winner: Option<nat>,   // the call whose swap found the flag clear
    woken: set<Waker>)

  datatype Action =
    | Create(f: nat)
    | BeginPoll(f: nat, w: Waker)
    | BeginDrop(f: nat)
    | Advance(f: nat)
    | BeginCancel(c: nat)
    | AdvanceCancel(c: nat)
    | WakeEntry(c: nat, id: nat)

  function Init(space: nat): (s: State)
  {
    State(space, false, 0, map[], map[], map[], None, {})
  }

  predicate Enabled(s: State, a: Action)
  {
    match a
    case Create(f) => f !in s.futures
    case BeginPoll(f, _) => f in s.futures && s.futures[f].pc.Resting? && !s.futures[f].dropped
    case BeginDrop(f) => f in s.futures && s.futures[f].pc.Resting? && !s.futures[f].dropped
    case Advance(f) => f in s.futures && !s.futures[f].pc.Resting?
    case BeginCancel(c) => c !in s.calls
    case AdvanceCancel(c) => c in s.calls && (s.calls[c].Waking? ==> s.calls[c].rest == map[]) && !s.calls[c].Returned?
    case WakeEntry(c, id) => c in s.calls && s.calls[c].Waking? && id in s.calls[c].rest
  }

  function Goto(s: State, f: nat, pc: FuturePc): (r: State)
    requires f in s.futures
  {
    s.(futures := s.futures[f := s.futures[f].(pc := pc)])
  }

  /** A future leaves its atomic section with its key removed from the registry. */
  function Forget(s: State, f: nat, pc: FuturePc): (r: State)
    requires f in s.futures
  {
    s.(waiters := Deregistered(s.waiters, s.futures[f].id),
       futures := s.futures[f := s.futures[f].(id := None, pc := pc)])
  }

  function Finish(s: State, f: nat, last: LastPoll): (r: State)
    requires f in s.futures
  {
    s.(futures := s.futures[f := s.futures[f].(pc := Resting, last := last)])
  }

  function AdvanceFuture(s: State, f: nat): (r: State)
    requires f in s.futures && s.nextId < s.space
  {
    match s.futures[f].pc
    case Resting => s
    case PollCheck(w) => Goto(s, f, if s.cancelled then PollDeregister else RegisterCheck(w))
    case RegisterCheck(w) => Goto(s, f, if s.cancelled then RegisterDeregister(w) else RegisterInsert(w))
    case RegisterInsert(w) =>
      var (id, waiters, nextId) := Registered(s.waiters, s.nextId, s.space, s.futures[f].id, w);
      if id.None? then Finish(s, f, Panicked)
      else s.(waiters := waiters, nextId := nextId,
              futures := s.futures[f := s.futures[f].(id := id, pc := RegisterRecheck(w))])
    case RegisterRecheck(w) => Goto(s, f, if s.cancelled then RegisterDeregister(w) else PollRecheck(w))
    case RegisterDeregister(w) => Forget(s, f, RegisterWake(w))
    case RegisterWake(w) => Goto(s.(woken := s.woken + {w}), f, PollRecheck(w))
    case PollRecheck(w) => if s.cancelled then Goto(s, f, PollDeregister) else Finish(s, f, Pending(w))
    case PollDeregister => Finish(Forget(s, f, PollDeregister), f, Ready)
    case DropDeregister =>
      var t := Forget(s, f, Resting);
      t.(futures := t.futures[f := t.futures[f].(dropped := true)])
  }

  function AdvanceCall(s: State, c: nat): (r: State)
    requires c in s.calls
  {
    match s.calls[c]
    case Swapping =>
      if s.cancelled then s.(calls := s.calls[c := Returned(false)])
      else s.(cancelled := true, calls := s.calls[c := Taking], winner := Some(c))
    case Taking => s.(waiters := map[], calls := s.calls[c := Waking(s.waiters)])
    case Waking(_) => s.(calls := s.calls[c := Returned(true)])
    case Returned(_) => s
  }

  function Apply(s: State, a: Action): (r: State)
    requires s.nextId < s.space && Enabled(s, a)
  {
    match a
    case Create(f) => s.(futures := s.futures[f := Future(None, Resting, Never, false)])
    case BeginPoll(f, w) => Goto(s, f, PollCheck(w))
    case BeginDrop(f) => Goto(s, f, DropDeregister)
    case Advance(f) => AdvanceFuture(s, f)
    case BeginCancel(c) => s.(calls := s.calls[c := Swapping])
    case AdvanceCancel(c) => AdvanceCall(s, c)
    case WakeEntry(c, id) =>
      s.(woken := s.woken + {s.calls[c].rest[id]},
         calls := s.calls[c := Waking(s.calls[c].rest - {id})])
  }

  // ----- invariant -----

  predicate Winner(call: Call)
  {
    call.Taking? || call.Waking? || call == Returned(true)
  }

  /** The winning call has emptied the registry. */
  predicate Taken(s: State)
  {
    && s.winner.Some?
    && s.winner.value in s.calls
    && (s.calls[s.winner.value].Waking? || s.calls[s.winner.value] == Returned(true))
  }

  /** The future rests after a poll that returned Pending. */
  predicate Waits(future: Future)
  {
    future.pc.Resting? && !future.dropped && future.last.Pending?
  }

  predicate Owns(futures: map<nat, Future>, f: nat, id: nat)
  {
    f in futures && futures[f].id == Some(id)
  }

  /** The registry keys are in bijection with the futures that hold an identifier. */
  ghost predicate KeysOwned(futures: map<nat, Future>, waiters: map<nat, Waker>)
  {
    && (forall f, id :: Owns(futures, f, id) ==> id in waiters)
    && (forall f, g, id :: Owns(futures, f, id) && Owns(futures, g, id) ==> f == g)
    && (forall id :: id in waiters ==> exists f :: Owns(futures, f, id))
  }

  /** The future's key leads to waker `w`. */
  predicate Entry(waiters: map<nat, Waker>, future: Future, w: Waker)
  {
    future.id.Some? && future.id.value in waiters && waiters[future.id.value] == w
  }

  /** The waker a future must find in the registry before the entries are taken. */
  predicate EntryCurrent(waiters: map<nat, Waker>, cancelled: bool, future: Future)
  {
    match future.pc
    case Resting => Waits(future) ==> Entry(waiters, future, future.last.w)
    case RegisterRecheck(w) => Entry(waiters, future, w)
    case PollRecheck(w) => cancelled || Entry(waiters, future, w)
    case _ => true
  }

  ghost predicate OneWinner(s: State)
  {
    && (s.cancelled <==> s.winner.Some?)
    && (s.winner.Some? ==> s.winner.value in s.calls && Winner(s.calls[s.winner.value]))
    && (forall c :: c in s.calls && Winner(s.calls[c]) ==> s.winner == Some(c))
    && (forall c :: c in s.calls && s.calls[c] == Returned(false) ==> s.cancelled)
  }

  /** Once the entries are taken, every waiting future is woken or still on the winner's list. */
  ghost predicate WakesPending(s: State)
    requires Taken(s)
  {
    forall f :: f in s.futures && Waits(s.futures[f]) ==>
      || s.futures[f].last.w in s.woken
      || (s.calls[s.winner.value].Waking? && s.futures[f].last.w in s.calls[s.winner.value].rest.Values)
  }

  ghost predicate FlagSeen(s: State)
  {
    && (!s.cancelled ==> s.woken == {})
    && (forall f :: f in s.futures && (s.futures[f].pc.RegisterDeregister? || s.futures[f].pc.RegisterWake?)
          ==> s.cancelled)
    && (forall f :: f in s.futures && s.futures[f].dropped ==> s.futures[f].id.None? && s.futures[f].pc.Resting?)
  }

  ghost predicate EntriesCurrent(s: State)
  {
    forall f :: f in s.futures ==> EntryCurrent(s.waiters, s.cancelled, s.futures[f])
  }

  ghost predicate Inv(s: State)
  {
    && s.nextId < s.space
    && OneWinner(s)
    && FlagSeen(s)
    && (if Taken(s) then WakesPending(s) else KeysOwned(s.futures, s.waiters) && EntriesCurrent(s))
  }

  /** Only future `f` differs between the two states. */
  ghost predicate OnlyChanges(s: State, t: State, f: nat)
  {
    && f in s.futures && t.futures.Keys == s.futures.Keys
    && (forall g :: g in s.futures && g != f ==> t.futures[g] == s.futures[g])
    && t.calls == s.calls && t.winner == s.winner && t.cancelled == s.cancelled
  }

  /** Until the entries are taken, one future may add its own key or give it up. */
  lemma KeysKept(s: State, t: State, f: nat)
    requires KeysOwned(s.futures, s.waiters) && OnlyChanges(s, t, f)
    requires forall id :: id in t.waiters <==>
               t.futures[f].id == Some(id) || (id in s.waiters && s.futures[f].id != Some(id))
    requires t.futures[f].id.None? || t.futures[f].id == s.futures[f].id || t.futures[f].id.value !in s.waiters
    ensures KeysOwned(t.futures, t.waiters)
  {
    forall g, id | Owns(t.futures, g, id) ensures id in t.waiters && (g == f || (Owns(s.futures, g, id) && !Owns(t.futures, f, id)))
    {
      if g != f {
        assert Owns(s.futures, g, id);
        assert !Owns(s.futures, f, id);
      }
    }
    forall id | id in t.waiters ensures exists g :: Owns(t.futures, g, id)
    {
      if Owns(t.futures, f, id) {
      } else {
        var g :| Owns(s.futures, g, id);
        assert Owns(t.futures, g, id);
      }
    }
  }

  /** Entries of the other futures survive a step that touches only the key of future `f`. */
  lemma EntriesKept(s: State, t: State, f: nat)
    requires KeysOwned(s.futures, s.waiters) && EntriesCurrent(s) && OnlyChanges(s, t, f)
    requires forall id :: id in s.waiters && s.futures[f].id != Some(id) ==> id in t.waiters && t.waiters[id] == s.waiters[id]
    requires EntryCurrent(t.waiters, t.cancelled, t.futures[f])
    ensures EntriesCurrent(t)
  {
    forall g | g in t.futures && g != f ensures EntryCurrent(t.waiters, t.cancelled, t.futures[g])
    {
      var future := s.futures[g];
      assert EntryCurrent(s.waiters, s.cancelled, future);
      if future.id.Some? {
        assert Owns(s.futures, g, future.id.value);
        assert !Owns(s.futures, f, future.id.value);
      }
    }
  }

  lemma InsertKeepsInv(s: State, f: nat)
    requires Inv(s) && f in s.futures && s.futures[f].pc.RegisterInsert?
    ensures Inv(AdvanceFuture(s, f))
  {
    var t := AdvanceFuture(s, f);
    var w := s.futures[f].pc.w;
    var (id, entries, next) := Registered(s.waiters, s.nextId, s.space, s.futures[f].id, w);
    RegisteredMeaning(s.waiters, s.nextId, s.space, s.futures[f].id, w);
    if id.None? {
      assert t == Finish(s, f, Panicked);
      LocalStepKeepsInv(s, t, f);
    } else {
      InsertedKeepsInv(s, t, f, id.value, w);
    }
  }

  lemma InsertedKeepsInv(s: State, t: State, f: nat, id: nat, w: Waker)
    requires Inv(s) && OnlyChanges(s, t, f)
    requires t.waiters == s.waiters[id := w]
    requires s.futures[f].id == Some(id) || (s.futures[f].id.None? && id !in s.waiters)
    requires t.futures[f] == s.futures[f].(id := Some(id), pc := RegisterRecheck(w)) && !s.futures[f].dropped
    requires t.woken == s.woken && t.nextId < t.space
    ensures Inv(t)
  {
    if !Taken(s) {
      assert s.futures[f].id.Some? ==> Owns(s.futures, f, s.futures[f].id.value);
      KeysKept(s, t, f);
      EntriesKept(s, t, f);
    }
  }

  /** A future has given up its key, and now waits for nothing. */
  lemma ForgottenKeepsInv(s: State, t: State, f: nat)
    requires Inv(s) && OnlyChanges(s, t, f)
    requires t.waiters == Deregistered(s.waiters, s.futures[f].id) && t.futures[f].id.None?
    requires t.nextId == s.nextId && t.space == s.space && t.woken == s.woken
    requires FlagSeen(t) && !Waits(t.futures[f]) && EntryCurrent(t.waiters, t.cancelled, t.futures[f])
    ensures Inv(t)
  {
    if !Taken(s) {
      KeysKept(s, t, f);
      EntriesKept(s, t, f);
    }
  }

  lemma ForgetKeepsInv(s: State, f: nat)
    requires Inv(s) && f in s.futures
    requires s.futures[f].pc.RegisterDeregister? || s.futures[f].pc.PollDeregister? || s.futures[f].pc.DropDeregister?
    ensures Inv(AdvanceFuture(s, f))
  {
    ForgottenKeepsInv(s, AdvanceFuture(s, f), f);
  }

  lemma LocalStepKeepsInv(s: State, t: State, f: nat)
    requires Inv(s) && OnlyChanges(s, t, f)
    requires t.waiters == s.waiters && t.nextId == s.nextId && t.space == s.space
    requires t.futures[f].id == s.futures[f].id
    requires s.woken <= t.woken
    requires FlagSeen(t) && (Taken(s) ==> !Waits(t.futures[f]))
    requires !Taken(s) ==> EntryCurrent(t.waiters, t.cancelled, t.futures[f])
    ensures Inv(t)
  {
    if !Taken(s) {
      assert s.futures[f].id.Some? ==> Owns(s.futures, f, s.futures[f].id.value);
      KeysKept(s, t, f);
      EntriesKept(s, t, f);
    }
  }

  /** The steps of a future that leave the registry alone. */
  lemma CheckKeepsInv(s: State, f: nat)
    requires Inv(s) && f in s.futures
    requires s.futures[f].pc.PollCheck? || s.futures[f].pc.RegisterCheck? || s.futures[f].pc.RegisterRecheck?
    ensures Inv(AdvanceFuture(s, f))
  {
    LocalStepKeepsInv(s, AdvanceFuture(s, f), f);
  }

  lemma RecheckKeepsInv(s: State, f: nat)
    requires Inv(s) && f in s.futures && (s.futures[f].pc.RegisterWake? || s.futures[f].pc.PollRecheck?)
    ensures Inv(AdvanceFuture(s, f))
  {
    LocalStepKeepsInv(s, AdvanceFuture(s, f), f);
  }

  lemma FutureStepKeepsInv(s: State, f: nat)
    requires Inv(s) && f in s.futures && !s.futures[f].pc.Resting?
    ensures Inv(AdvanceFuture(s, f))
  {
    var pc := s.futures[f].pc;
    if pc.RegisterInsert? {
      InsertKeepsInv(s, f);
    } else if pc.RegisterDeregister? || pc.PollDeregister? || pc.DropDeregister? {
      ForgetKeepsInv(s, f);
    } else if pc.RegisterWake? || pc.PollRecheck? {
      RecheckKeepsInv(s, f);
    } else {
      CheckKeepsInv(s, f);
    }
  }

  lemma CallStepKeepsInv(s: State, c: nat)
    requires Inv(s) && Enabled(s, AdvanceCancel(c))
    ensures Inv(AdvanceCall(s, c))
  {
    var t := AdvanceCall(s, c);
    assert t.futures == s.futures;
    if s.calls[c].Taking? {
      forall f | f in t.futures && Waits(t.futures[f])
        ensures t.futures[f].last.w in t.calls[c].rest.Values
      {
        assert EntryCurrent(s.waiters, s.cancelled, s.futures[f]);
      }
    }
  }

  lemma BeginKeepsInv(s: State, f: nat, pc: FuturePc)
    requires Inv(s) && f in s.futures && s.futures[f].pc.Resting? && !s.futures[f].dropped
    requires pc.PollCheck? || pc.DropDeregister?
    ensures Inv(Goto(s, f, pc))
  {
    LocalStepKeepsInv(s, Goto(s, f, pc), f);
  }

  lemma CreateKeepsInv(s: State, f: nat)
    requires Inv(s) && Enabled(s, Create(f))
    ensures Inv(Apply(s, Create(f)))
  {
    var t := Apply(s, Create(f));
    if !Taken(s) {
      forall id | id in t.waiters ensures exists g :: Owns(t.futures, g, id) {
        var g :| Owns(s.futures, g, id);
        assert Owns(t.futures, g, id);
      }
      forall g, id | Owns(t.futures, g, id) ensures Owns(s.futures, g, id) {}
    }
  }

  lemma WakeEntryKeepsInv(s: State, c: nat, id: nat)
    requires Inv(s) && Enabled(s, WakeEntry(c, id))
    ensures Inv(Apply(s, WakeEntry(c, id)))
  {
    var t := Apply(s, WakeEntry(c, id));
    assert s.winner == Some(c);
    forall f | f in t.futures && Waits(t.futures[f])
      ensures t.futures[f].last.w in t.woken || t.futures[f].last.w in t.calls[c].rest.Values
    {
      var w := t.futures[f].last.w;
      if w !in t.woken {
        var k :| k in s.calls[c].rest && s.calls[c].rest[k] == w;
        assert k in t.calls[c].rest;
      }
    }
  }

  lemma StepKeepsInv(s: State, a: Action)
    requires Inv(s) && Enabled(s, a)
    ensures Inv(Apply(s, a))
  {
    match a {
      case Advance(f) => FutureStepKeepsInv(s, f);
      case AdvanceCancel(c) => CallStepKeepsInv(s, c);
      case Create(f) => CreateKeepsInv(s, f);
      case BeginPoll(f, w) => BeginKeepsInv(s, f, PollCheck(w));
      case BeginDrop(f) => BeginKeepsInv(s, f, DropDeregister);
      case BeginCancel(_) =>
      case WakeEntry(c, id) => WakeEntryKeepsInv(s, c, id);
    }
  }

  // ----- whole runs -----

  predicate ValidRun(s: State, run: seq<Action>)
    decreases |run|
  {
    s.nextId < s.space && (run == [] || (Enabled(s, run[0]) && ValidRun(Apply(s, run[0]), run[1..])))
  }

  function Final(s: State, run: seq<Action>): (t: State)
    requires ValidRun(s, run)
    decreases |run|
  {
    if run == [] then s else Final(Apply(s, run[0]), run[1..])
  }

  lemma {:induction false} RunKeepsInv(s: State, run: seq<Action>)
    requires Inv(s) && ValidRun(s, run)
    ensures Inv(Final(s, run))
    decreases |run|
  {
    if run != [] {
      StepKeepsInv(s, run[0]);
      RunKeepsInv(Apply(s, run[0]), run[1..]);
    }
  }

  /** The first call to reach the swap wins; every other call that returned, returned false. */
  lemma ExactlyOneCancelWins(space: nat, run: seq<Action>)
    requires 0 < space && ValidRun(Init(space), run)
    ensures var s := Final(Init(space), run);
            && (forall c, d :: c in s.calls && d in s.calls && s.calls[c] == Returned(true) && s.calls[d] == Returned(true)
                  ==> c == d)
            && (forall c :: c in s.calls && s.calls[c].Returned? ==> s.cancelled)
            && (s.cancelled ==> s.winner.Some? && s.winner.value in s.calls && Winner(s.calls[s.winner.value]))
  {
    RunKeepsInv(Init(space), run);
  }

  /**
   No lost wake-up: once the winning `cancel` call has returned, every live future whose last
   poll returned Pending has had the waker of that poll woken, whatever was registered,
   replaced, dropped or evicted in between.
   */
  lemma NoLostWakeUp(space: nat, run: seq<Action>, c: nat, f: nat)
    requires 0 < space && ValidRun(Init(space), run)
    requires var s := Final(Init(space), run);
             && c in s.calls && s.calls[c] == Returned(true)
             && f in s.futures && Waits(s.futures[f])
    ensures var s := Final(Init(space), run); s.futures[f].last.w in s.woken
  {
    RunKeepsInv(Init(space), run);
  }

  lemma PendingMeansNotCancelled(s: State, f: nat)
    requires s.nextId < s.space && f in s.futures && !s.futures[f].pc.Resting? && !s.futures[f].dropped
    requires Waits(AdvanceFuture(s, f).futures[f])
    ensures !s.cancelled
  {
  }

  /**
   A poll returns Pending only while nothing at all has been woken, so the wake-up that
   `NoLostWakeUp` promises is later than the poll it answers.
   */
  lemma PendingPrecedesEveryWake(space: nat, run: seq<Action>, f: nat)
    requires 0 < space && ValidRun(Init(space), run)
    requires var s := Final(Init(space), run);
             s.nextId < s.space && f in s.futures && !s.futures[f].pc.Resting? && Waits(AdvanceFuture(s, f).futures[f])
    ensures Final(Init(space), run).woken == {}
  {
    RunKeepsInv(Init(space), run);
    PendingMeansNotCancelled(Final(Init(space), run), f);
  }

  /** A waiting future is either in the registry, on the winner's list, or already woken. */
  lemma WaitingIsAlwaysReachable(space: nat, run: seq<Action>, f: nat)
    requires 0 < space && ValidRun(Init(space), run)
    requires f in Final(Init(space), run).futures && Waits(Final(Init(space), run).futures[f])
    ensures var s := Final(Init(space), run);
            var future := s.futures[f];
            || Entry(s.waiters, future, future.last.w)
            || (Taken(s) && s.calls[s.winner.value].Waking? && future.last.w in s.calls[s.winner.value].rest.Values)
            || future.last.w in s.woken
  {
    RunKeepsInv(Init(space), run);
    var s := Final(Init(space), run);
    assert Taken(s) || EntryCurrent(s.waiters, s.cancelled, s.futures[f]);
  }

  /** Until a cancellation, registry keys and registered live futures are in bijection. */
  lemma RegistryMatchesFutures(space: nat, run: seq<Action>)
    requires 0 < space && ValidRun(Init(space), run) && !Final(Init(space), run).cancelled
    ensures var s := Final(Init(space), run);
            && KeysOwned(s.futures, s.waiters)
            && (forall f :: f in s.futures && s.futures[f].dropped ==> s.futures[f].id.None?)
  {
    RunKeepsInv(Init(space), run);
  }

  /** The future registered, or will look at the set flag before its poll ends. */
  predicate WakesItself(s: State, f: nat, w: Waker)
  {
    && s.cancelled && f in s.futures
    && (|| s.futures[f].pc == RegisterRecheck(w)
        || s.futures[f].pc == RegisterDeregister(w)
        || s.futures[f].pc == RegisterWake(w)
        || w in s.woken)
  }

  /**
   A future that inserted its entry too late for the winner to take it is woken all the same:
   whatever happens to that entry, and to its identifier, before the poll ends.
   */
  lemma StepKeepsWakesItself(s: State, a: Action, f: nat, w: Waker)
    requires s.nextId < s.space && Enabled(s, a) && WakesItself(s, f, w)
    ensures WakesItself(Apply(s, a), f, w)
  {
  }

  lemma {:induction false} LateRegistrantWakesItself(s: State, run: seq<Action>, f: nat, w: Waker)
    requires ValidRun(s, run) && WakesItself(s, f, w)
    requires f in Final(s, run).futures && Final(s, run).futures[f].pc.Resting?
    ensures w in Final(s, run).woken
    decreases |run|
  {
    if run != [] {
      StepKeepsWakesItself(s, run[0], f, w);
      LateRegistrantWakesItself(Apply(s, run[0]), run[1..], f, w);
    }
  }

  lemma {:induction false} Then(s0: State, run: seq<Action>, s: State, a: Action) returns (more: seq<Action>, t: State)
    requires ValidRun(s0, run) && Final(s0, run) == s
    requires s.nextId < s.space && Enabled(s, a) && Apply(s, a).nextId < Apply(s, a).space
    ensures more == run + [a] && t == Apply(s, a) && ValidRun(s0, more) && Final(s0, more) == t
    decreases |run|
  {
    more, t := run + [a], Apply(s, a);
    if run == [] {
      assert more[1..] == [];
    } else {
      var rest, u := Then(Apply(s0, run[0]), run[1..], s, a);
      assert more[1..] == rest;
    }
  }

  const WAITING: Future := Future(Some(0), Resting, Pending(7), false)

  lemma OneFutureWaits() returns (r: seq<Action>)
    ensures ValidRun(Init(1), r)
    ensures Final(Init(1), r) == State(1, false, 0, map[0 := 7], map[0 := WAITING], map[], None, {})
  {
    var i := Init(1);
    var s;
    r, s := Then(i, [], i, Create(0));
    r, s := Then(i, r, s, BeginPoll(0, 7));
    r, s := Then(i, r, s, Advance(0));
    r, s := Then(i, r, s, Advance(0));
    assert s.futures == map[0 := Future(None, RegisterInsert(7), Never, false)];
    r, s := Then(i, r, s, Advance(0));
    assert s.waiters == map[0 := 7] && s.nextId == 0;
    r, s := Then(i, r, s, Advance(0));
    r, s := Then(i, r, s, Advance(0));
  }

  lemma AnotherIsAboutToRegister() returns (r: seq<Action>)
    ensures ValidRun(Init(1), r)
    ensures Final(Init(1), r) == State(1, false, 0, map[0 := 7],
                                       map[0 := WAITING, 1 := Future(None, RegisterInsert(8), Never, false)],
                                       map[], None, {})
  {
    var i := Init(1);
    r := OneFutureWaits();
    var s := Final(i, r);
    r, s := Then(i, r, s, Create(1));
    r, s := Then(i, r, s, BeginPoll(1, 8));
    r, s := Then(i, r, s, Advance(1));
    r, s := Then(i, r, s, Advance(1));
  }

  lemma EntriesAreTaken() returns (r: seq<Action>)
    ensures ValidRun(Init(1), r)
    ensures Final(Init(1), r) == State(1, true, 0, map[],
                                       map[0 := WAITING, 1 := Future(None, RegisterInsert(8), Never, false)],
                                       map[0 := Waking(map[0 := 7])], Some(0), {})
  {
    var i := Init(1);
    r := AnotherIsAboutToRegister();
    var s := Final(i, r);
    r, s := Then(i, r, s, BeginCancel(0));
    r, s := Then(i, r, s, AdvanceCancel(0));
    r, s := Then(i, r, s, AdvanceCancel(0));
  }

  /**
   The hard case does occur, already with a single identifier: a future that passed both flag
   checks before the swap registers after the entries were taken, receives the emptied
   identifier, and loses its entry to the drop of the identifier's previous holder.
   */
  lemma ReusedIdentifierCanBeEvicted() returns (r: seq<Action>)
    ensures ValidRun(Init(1), r)
    ensures var s := Final(Init(1), r);
            && WakesItself(s, 1, 8) && s.futures[1].id == Some(0) && s.futures[1].pc == RegisterRecheck(8)
            && s.waiters == map[]
  {
    var i := Init(1);
    r := EntriesAreTaken();
    var s := Final(i, r);
    r, s := Then(i, r, s, Advance(1));
    assert s.waiters == map[0 := 8];
    r, s := Then(i, r, s, BeginDrop(0));
    r, s := Then(i, r, s, Advance(0));
    assert s.waiters == map[];
  }
}
