/**
 Crash-tolerant ownership in the Zig cache of scripts/provision_zig.py.

 Any number of processes share a cache root. Extraction directories live under `active`, each
 with a lease file; a directory to be deleted is first moved into a trash tree, whose sibling
 lease file is locked by the process that will delete it. Lease creation, claiming, retiring
 and moving happen under one coordination lock, recursive deletion does not. A process may
 crash between any two steps, which releases every file lock it holds and nothing else.
 */
module TrashLeases {
  import opened Shared

  type Pid = nat
  type Name = nat   // a trash tree and its lease file
  type Dir = nat    // an extraction directory
  type Inode = nat  // a file or directory, by identity

  datatype Origin = TrashLease(name: Name) | TrashTree(name: Name) | RunLease(dir: Dir) | RunDirectory(dir: Dir)

  /** Trash this process owns: its lease is locked; the tree may be gone, then the lease too. */
  datatype Owned = Owned(name: Name, removed: bool, unlinked: bool)

  datatype Run = NoRun | Attached(dir: Dir, inode: Inode) | Detached(inode: Inode)

  /** Where a process stands; every stage but `Out` holds the coordination lock. */
  datatype Pc =
    | Out
    | In
    // create_private_trash, and its two failure branches
    | NewLease(name: Name, inode: Inode)
    | NewLocked(name: Name, inode: Inode)
    | NewMade(name: Name, inode: Inode)
    | NewFailed(name: Name, inode: Inode, clear: bool)   // the lock is dropped, the lease file not yet
    | NewCleared(name: Name)                             // nor the tree
    | ClaimSeen(name: Name, tree: Inode)
    | ClaimOpened(name: Name, inode: Inode, tree: Inode)
    | ClaimLocked(name: Name, inode: Inode, tree: Inode)
    | RetireSeen(name: Name)
    | RetireOpened(name: Name, inode: Inode)
    | RetireLocked(name: Name, inode: Inode)
    | StaleSeen(dir: Dir, id: Inode)
    | StaleOpened(dir: Dir, inode: Inode, id: Inode)
    | StaleLocked(dir: Dir, inode: Inode, id: Inode)
    // create_active_lease, and its failure branch
    | RunMade(dir: Dir)
    | RunLeased(dir: Dir, inode: Inode)
    | RunLocked(dir: Dir, inode: Inode)
    | RunFailed(dir: Dir)

  datatype Process = Process(pc: Pc, owned: map<Inode, Owned>, run: Run)

  /** An extraction directory and the lease file in it. */
  datatype Entry = Entry(id: Inode, lease: Option<Inode>)

  /** The file system: what the cache root and its `active` directory hold, and the file locks. */
  datatype Store = Store(
    trees: map<Name, Inode>,
    leases: map<Name, Inode>,
    active: map<Dir, Entry>,
    locks: map<Inode, Pid>,
    files: map<Inode, Origin>,   // every file and directory ever created
    strays: set<Name>,           // trees whose failed constructor took the lease away, until removed or leased again
    failed: set<Name>)           // trees whose constructor ever failed after making them

  datatype Cache = Cache(
    store: Store,
    holder: Option<Pid>,         // of the coordination lock
    procs: map<Pid, Process>,
    fault: bool)                 // an integrity check of the script failed

  datatype Action =
    | Start
    | Acquire
    | Release
    | CreateLease(name: Name, inode: Inode)
    | SeeTree(name: Name)
    | SeeOrphan(name: Name)
    | SeeStale(dir: Dir)
    | MakeRun(dir: Dir, inode: Inode)
    | Advance(inode: Inode)         // next step of the operation in progress; a spare inode if it creates one
    | Fail                          // that step raises instead, or ignores an error
    | Abandon                       // the mode of a new trash lease cannot be set: it stays behind
    | DetachRun(inode: Inode)       // into the owned trash with this lease
    | DeleteTree(inode: Inode)
    | UnlinkLease(inode: Inode)
    | CloseTrash(inode: Inode)
    | CloseRun
    | Crash

  predicate Enabled(s: Cache, p: Pid, a: Action)
  {
    if a.Start? then p !in s.procs else
    && p in s.procs
    && var me := s.procs[p];
    var st := s.store;
    match a
    case Start => false
    case Acquire => me.pc.Out? && s.holder.None?
    case Release => me.pc.In?
    case CreateLease(name, inode) => me.pc.In? && name !in st.leases && inode !in st.files
    case SeeTree(name) => me.pc.In? && name in st.trees
    case SeeOrphan(name) => me.pc.In? && name in st.leases && name !in st.trees
    case SeeStale(dir) => me.pc.In? && dir in st.active
    case MakeRun(dir, inode) => me.pc.In? && me.run.NoRun? && dir !in st.active && inode !in st.files
    case Advance(inode) => !me.pc.Out? && !me.pc.In? && inode !in st.files
    case Fail => !me.pc.Out? && !me.pc.In?
    case Abandon => me.pc.NewLease?
    case DetachRun(inode) => me.pc.In? && me.run.Attached? && inode in me.owned && !me.owned[inode].removed
    case DeleteTree(inode) => me.pc.Out? && inode in me.owned && !me.owned[inode].removed
    case UnlinkLease(inode) => me.pc.In? && inode in me.owned && me.owned[inode].removed && !me.owned[inode].unlinked
    case CloseTrash(inode) => (me.pc.Out? || me.pc.In?) && inode in me.owned
    case CloseRun => me.pc.Out? && !me.run.NoRun?
    case Crash => true
  }

  /** What one step of a process does to the store and to itself; the flag reports a failed check. */
  datatype Effect = Effect(store: Store, me: Process, fault: bool)

  function Lock(st: Store, p: Pid, inode: Inode): (r: Store)
  {
    st.(locks := st.locks[inode := p])
  }

  function Unlock(st: Store, inode: Inode): (r: Store)
  {
    st.(locks := st.locks - {inode})
  }

  function MakeTree(st: Store, name: Name, id: Inode): (r: Store)
  {
    st.(trees := st.trees[name := id], files := st.files[id := TrashTree(name)])
  }

  /** A failed constructor takes the lease file away; a tree it made is then a stray. */
  function TakeLease(st: Store, name: Name): (r: Store)
  {
    st.(leases := st.leases - {name}, strays := if name in st.trees then st.strays + {name} else st.strays)
  }

  function ClearTree(st: Store, name: Name): (r: Store)
  {
    st.(trees := st.trees - {name}, strays := st.strays - {name})
  }

  function CreateRunLease(st: Store, dir: Dir, inode: Inode): (r: Store)
    requires dir in st.active
  {
    st.(active := st.active[dir := st.active[dir].(lease := Some(inode))], files := st.files[inode := RunLease(dir)])
  }

  /** The next step of the operation process `p` is in the middle of. */
  function Proceed(st: Store, p: Pid, me: Process, spare: Inode): (r: Effect)
  {
    var done := me.(pc := In);
    match me.pc
    case Out => Effect(st, me, false)
    case In => Effect(st, me, false)
    // create_private_trash: lock the new lease, then make the tree; an existing tree means another attempt
    case NewLease(name, inode) =>
      if inode in st.locks then Effect(st, done, true)
      else Effect(Lock(st, p, inode), me.(pc := NewLocked(name, inode)), false)
    case NewLocked(name, inode) =>
      if name in st.trees then Effect(Unlock(st, inode), me.(pc := NewFailed(name, inode, false)), false)
      else Effect(MakeTree(st, name, spare), me.(pc := NewMade(name, inode)), false)
    case NewMade(name, inode) => Effect(st, done.(owned := me.owned[inode := Owned(name, false, false)]), false)
    case NewFailed(name, inode, clear) => Effect(TakeLease(st, name), me.(pc := if clear then NewCleared(name) else In), false)
    case NewCleared(name) => Effect(ClearTree(st, name), done, false)
    // claim_abandoned_trash: open the lease, lock it, recheck lease and tree
    case ClaimSeen(name, tree) =>
      if name in st.leases then Effect(st, me.(pc := ClaimOpened(name, st.leases[name], tree)), false)
      else Effect(st, done, name in st.trees)
    case ClaimOpened(name, inode, tree) =>
      if inode in st.locks then Effect(st, done, false)
      else Effect(Lock(st, p, inode), me.(pc := ClaimLocked(name, inode, tree)), false)
    case ClaimLocked(name, inode, tree) =>
      if name !in st.leases then Effect(Unlock(st, inode), done, false)
      else if st.leases[name] != inode then Effect(Unlock(st, inode), done, true)
      else if name !in st.trees then Effect(Unlock(st, inode), done, false)
      else if st.trees[name] != tree then Effect(Unlock(st, inode), done, true)
      else Effect(st, done.(owned := me.owned[inode := Owned(name, false, false)]), false)
    // retire_orphan_trash_leases
    case RetireSeen(name) =>
      if name in st.leases then Effect(st, me.(pc := RetireOpened(name, st.leases[name])), false)
      else Effect(st, done, false)
    case RetireOpened(name, inode) =>
      if inode in st.locks then Effect(st, done, false)
      else Effect(Lock(st, p, inode), me.(pc := RetireLocked(name, inode)), false)
    case RetireLocked(name, inode) =>
      if name in st.trees || name !in st.leases then Effect(Unlock(st, inode), done, false)
      else if st.leases[name] != inode then Effect(Unlock(st, inode), done, true)
      else Effect(Unlock(st.(leases := st.leases - {name}), inode), done, false)
    // move_stale_active_to_trash: open (or create) the directory's lease, lock it, recheck and move it away
    case StaleSeen(dir, id) =>
      if dir !in st.active then Effect(st, done, false)
      else if st.active[dir].lease.Some? then Effect(st, me.(pc := StaleOpened(dir, st.active[dir].lease.value, id)), false)
      else Effect(CreateRunLease(st, dir, spare), me.(pc := StaleOpened(dir, spare, id)), false)
    case StaleOpened(dir, inode, id) =>
      if inode in st.locks then Effect(st, done, false)
      else Effect(Lock(st, p, inode), me.(pc := StaleLocked(dir, inode, id)), false)
    case StaleLocked(dir, inode, id) =>
      if dir !in st.active then Effect(Unlock(st, inode), done, false)
      else if st.active[dir].id != id then Effect(Unlock(st, inode), done, true)
      else Effect(Unlock(st.(active := st.active - {dir}), inode), done, false)
    // create_active_lease; after a failure the directory is deleted piece by piece
    case RunMade(dir) =>
      if dir !in st.active || st.active[dir].lease.Some? then Effect(st, done, true)
      else Effect(CreateRunLease(st, dir, spare), me.(pc := RunLeased(dir, spare)), false)
    case RunLeased(dir, inode) =>
      if inode in st.locks then Effect(st, done, true)
      else Effect(Lock(st, p, inode), me.(pc := RunLocked(dir, inode)), false)
    case RunLocked(dir, inode) => Effect(st, done.(run := Attached(dir, inode)), false)
    case RunFailed(dir) =>
      if dir !in st.active then Effect(st, done, false)
      else if st.active[dir].lease.Some? then Effect(st.(active := st.active[dir := st.active[dir].(lease := None)]), me, false)
      else Effect(st.(active := st.active - {dir}), done, false)
  }

  /** The step in progress raises; descriptors are closed on the way out, and constructors clean up. */
  function Raise(st: Store, me: Process): (r: Effect)
  {
    match me.pc
    case NewLease(name, inode) => Effect(st, me.(pc := NewFailed(name, inode, true)), false)
    case NewLocked(name, inode) => Effect(Unlock(st, inode), me.(pc := NewFailed(name, inode, true)), false)
    case NewMade(name, inode) =>
      Effect(Unlock(st, inode).(failed := st.failed + {name}), me.(pc := NewFailed(name, inode, true)), false)
    case RunMade(dir) => Effect(st, me.(pc := RunFailed(dir)), false)
    case RunLeased(dir, _) => Effect(st, me.(pc := RunFailed(dir)), false)
    case RunLocked(dir, inode) => Effect(Unlock(st, inode), me.(pc := RunFailed(dir)), false)
    case _ => Effect(if Working(me.pc).Some? then Unlock(st, Working(me.pc).value) else st, me.(pc := In), false)
  }

  /** Steps that change the store or what the process holds. */
  function Perform(st: Store, p: Pid, me: Process, a: Action): (r: Effect)
    requires !Passive(a) && !a.Crash?
    requires a.DetachRun? ==> me.run.Attached?
    requires a.DeleteTree? || a.UnlinkLease? || a.CloseTrash? ==> a.inode in me.owned
    requires a.CloseRun? ==> !me.run.NoRun?
  {
    match a
    case CreateLease(name, inode) =>
      Effect(st.(leases := st.leases[name := inode], files := st.files[inode := TrashLease(name)], strays := st.strays - {name}),
             me.(pc := NewLease(name, inode)), false)
    case MakeRun(dir, inode) =>
      Effect(st.(active := st.active[dir := Entry(inode, None)], files := st.files[inode := RunDirectory(dir)]),
             me.(pc := RunMade(dir)), false)
    case Advance(inode) => Proceed(st, p, me, inode)
    case Fail => Raise(st, me)
    case Abandon => Effect(st, me.(pc := In), false)
    case DetachRun(_) =>
      if me.run.dir !in st.active then Effect(st, me, true)
      else Effect(st.(active := st.active - {me.run.dir}), me.(run := Detached(me.run.inode)), false)
    case DeleteTree(inode) =>
      Effect(st.(trees := st.trees - {me.owned[inode].name}),
             me.(owned := me.owned[inode := me.owned[inode].(removed := true)]), false)
    case UnlinkLease(inode) =>
      var name := me.owned[inode].name;
      if name !in st.leases || st.leases[name] != inode then Effect(st, me, true)
      else Effect(st.(leases := st.leases - {name}), me.(owned := me.owned[inode := me.owned[inode].(unlinked := true)]), false)
    case CloseTrash(inode) =>
      Effect(Unlock(st, inode), me.(owned := me.owned - {inode}), false)
    case CloseRun =>
      Effect(Unlock(st, me.run.inode), me.(run := NoRun), false)
  }

  predicate Passive(a: Action)
  {
    a.Start? || a.Acquire? || a.Release? || a.SeeTree? || a.SeeOrphan? || a.SeeStale?
  }

  function Apply(s: Cache, p: Pid, a: Action): (r: Cache)
    requires Enabled(s, p, a)
  {
    match a
    case Start => s.(procs := s.procs[p := Process(Out, map[], NoRun)])
    case Acquire => s.(holder := Some(p), procs := s.procs[p := s.procs[p].(pc := In)])
    case Release => s.(holder := None, procs := s.procs[p := s.procs[p].(pc := Out)])
    case SeeTree(name) => s.(procs := s.procs[p := s.procs[p].(pc := ClaimSeen(name, s.store.trees[name]))])
    case SeeOrphan(name) => s.(procs := s.procs[p := s.procs[p].(pc := RetireSeen(name))])
    case SeeStale(dir) => s.(procs := s.procs[p := s.procs[p].(pc := StaleSeen(dir, s.store.active[dir].id))])
    case Crash =>
      s.(procs := s.procs - {p},
         store := s.store.(locks := map i | i in s.store.locks && s.store.locks[i] != p :: s.store.locks[i]),
         holder := if s.holder == Some(p) then None else s.holder)
    case _ =>
      var e := Perform(s.store, p, s.procs[p], a);
      s.(store := e.store, procs := s.procs[p := e.me], fault := s.fault || e.fault)
  }

  // ----- invariant -----

  predicate HoldsLease(st: Store, p: Pid, name: Name, inode: Inode)
  {
    inode in st.locks && st.locks[inode] == p && name in st.leases && st.leases[name] == inode
  }

  /** What process `p` owns is locked by it and still where it believes it is. */
  predicate OwnedFits(st: Store, p: Pid, inode: Inode, owned: Owned)
  {
    && inode in st.locks && st.locks[inode] == p
    && inode in st.files && st.files[inode] == TrashLease(owned.name)
    && (!owned.unlinked ==> HoldsLease(st, p, owned.name, inode))
    && (!owned.removed ==> owned.name in st.trees && !owned.unlinked)
    && (owned.removed && !owned.unlinked ==> owned.name !in st.trees)
  }

  predicate RunFits(st: Store, p: Pid, run: Run)
  {
    match run
    case NoRun => true
    case Attached(dir, inode) =>
      && inode in st.locks && st.locks[inode] == p
      && inode in st.files && st.files[inode] == RunLease(dir)
      && dir in st.active && st.active[dir].lease == Some(inode)
    case Detached(inode) =>
      inode in st.locks && st.locks[inode] == p && inode in st.files && st.files[inode].RunLease?
  }

  /** The lease file is this one. */
  predicate Leased(st: Store, name: Name, inode: Inode) { name in st.leases && st.leases[name] == inode }

  /** A tree of this name can only be one whose constructor failed. */
  predicate OnlyStray(st: Store, name: Name) { name in st.trees ==> name in st.failed }

  /** The tree is the one observed, or gone. */
  predicate Observed(st: Store, name: Name, tree: Inode) { name in st.trees ==> st.trees[name] == tree }

  predicate PcFits(st: Store, p: Pid, pc: Pc)
  {
    match pc
    case Out => true
    case In => true
    case NewLease(name, inode) => Leased(st, name, inode) && inode !in st.locks && OnlyStray(st, name)
    case NewLocked(name, inode) => HoldsLease(st, p, name, inode) && OnlyStray(st, name)
    case NewMade(name, inode) => HoldsLease(st, p, name, inode) && name in st.trees
    case NewFailed(name, inode, _) => Leased(st, name, inode) && inode !in st.locks && OnlyStray(st, name)
    case NewCleared(name) => name !in st.leases
    case ClaimSeen(name, tree) => (name in st.leases || name in st.strays) && Observed(st, name, tree)
    case ClaimOpened(name, inode, tree) => Leased(st, name, inode) && Observed(st, name, tree)
    case ClaimLocked(name, inode, tree) => HoldsLease(st, p, name, inode) && Observed(st, name, tree)
    case RetireSeen(name) => name in st.leases && name !in st.trees
    case RetireOpened(name, inode) => Leased(st, name, inode) && name !in st.trees
    case RetireLocked(name, inode) => HoldsLease(st, p, name, inode) && name !in st.trees
    case StaleSeen(dir, id) => dir in st.active && st.active[dir].id == id
    case StaleOpened(dir, inode, id) => dir in st.active && st.active[dir] == Entry(id, Some(inode))
    case StaleLocked(dir, inode, id) =>
      dir in st.active && st.active[dir] == Entry(id, Some(inode)) && inode in st.locks && st.locks[inode] == p
    case RunMade(dir) => dir in st.active && st.active[dir].lease.None?
    case RunLeased(dir, inode) => dir in st.active && st.active[dir].lease == Some(inode) && inode !in st.locks
    case RunLocked(dir, inode) =>
      dir in st.active && st.active[dir].lease == Some(inode) && inode in st.locks && st.locks[inode] == p
    case RunFailed(dir) => dir in st.active && (st.active[dir].lease.Some? ==> st.active[dir].lease.value !in st.locks)
  }

  /** The inode a process has locked for the operation in progress, if any. */
  function Working(pc: Pc): (r: Option<Inode>)
  {
    match pc
    case NewLocked(_, inode) => Some(inode)
    case NewMade(_, inode) => Some(inode)
    case ClaimLocked(_, inode, _) => Some(inode)
    case RetireLocked(_, inode) => Some(inode)
    case StaleLocked(_, inode, _) => Some(inode)
    case RunLocked(_, inode) => Some(inode)
    case _ => None
  }

  /** Every lock belongs to something its process holds: owned trash, its run, or work in progress. */
  predicate LockUsed(me: Process, inode: Inode, origin: Origin)
  {
    || Working(me.pc) == Some(inode)
    || (origin.TrashLease? && inode in me.owned)
    || (origin.RunLease? && !me.run.NoRun? && me.run.inode == inode)
  }

  predicate MakesRun(pc: Pc) { pc.RunMade? || pc.RunLeased? || pc.RunLocked? || pc.RunFailed? }

  /** An inode locked for work in progress is held for nothing else. */
  predicate WorkFits(me: Process)
  {
    && (MakesRun(me.pc) ==> me.run.NoRun?)
    && (Working(me.pc).Some? ==>
          && Working(me.pc).value !in me.owned
          && (!me.run.NoRun? ==> me.run.inode != Working(me.pc).value))
  }

  ghost predicate OwnsFit(st: Store, p: Pid, owned: map<Inode, Owned>)
  {
    forall inode :: inode in owned ==> OwnedFits(st, p, inode, owned[inode])
  }

  ghost predicate ProcFits(st: Store, p: Pid, me: Process)
  {
    PcFits(st, p, me.pc) && RunFits(st, p, me.run) && WorkFits(me) && OwnsFit(st, p, me.owned)
  }

  ghost predicate StoreFits(st: Store)
  {
    && (forall name :: name in st.strays <==> name in st.trees && name !in st.leases)
    && st.strays <= st.failed
    && (forall name :: name in st.leases ==> st.leases[name] in st.files && st.files[st.leases[name]] == TrashLease(name))
    && (forall dir :: dir in st.active && st.active[dir].lease.Some? ==>
          st.active[dir].lease.value in st.files && st.files[st.active[dir].lease.value] == RunLease(dir))
    && (forall i :: i in st.locks ==> i in st.files)
  }

  /** Process `p` accounts for every lock registered to it. */
  ghost predicate LocksUsed(st: Store, p: Pid, me: Process)
    requires StoreFits(st)
  {
    forall i :: i in st.locks && st.locks[i] == p ==> LockUsed(me, i, st.files[i])
  }

  ghost predicate Inv(s: Cache)
  {
    && (s.fault ==> s.store.failed != {})
    && StoreFits(s.store)
    && (forall i :: i in s.store.locks ==> s.store.locks[i] in s.procs)
    && (s.holder.Some? ==> s.holder.value in s.procs)
    && (forall p :: p in s.procs ==>
          && (s.procs[p].pc.Out? <==> s.holder != Some(p))
          && ProcFits(s.store, p, s.procs[p])
          && LocksUsed(s.store, p, s.procs[p]))
  }

  // ----- what a step of one process leaves alone -----

  /** Nothing that process `q` has locked, or that a lock of `q` protects, has changed. */
  ghost predicate Respects(st: Store, st': Store, q: Pid)
  {
    && (forall i :: (i in st.locks && st.locks[i] == q) <==> (i in st'.locks && st'.locks[i] == q))
    && (forall name :: name in st.leases && st.leases[name] in st.locks && st.locks[st.leases[name]] == q ==>
          && name in st'.leases && st'.leases[name] == st.leases[name]
          && (name in st.trees <==> name in st'.trees))
    && (forall dir :: dir in st.active && st.active[dir].lease.Some? && st.active[dir].lease.value in st.locks
                      && st.locks[st.active[dir].lease.value] == q ==>
          dir in st'.active && st'.active[dir] == st.active[dir])
    && (forall i :: i in st.files ==> i in st'.files && st'.files[i] == st.files[i])
  }

  /** A step taken without the coordination lock only deletes leased trees and drops locks. */
  ghost predicate Quiet(st: Store, st': Store)
  {
    && st'.leases == st.leases && st'.active == st.active && st'.failed == st.failed && st'.strays == st.strays
    && (forall name :: name in st'.trees ==> name in st.trees && st'.trees[name] == st.trees[name])
    && (forall name :: name in st.trees && name !in st'.trees ==> name in st.leases && st.leases[name] in st.locks)
    && (forall i :: i in st'.locks ==> i in st.locks && st'.locks[i] == st.locks[i])
  }

  lemma OtherOwnsFit(st: Store, st': Store, q: Pid, owned: map<Inode, Owned>)
    requires Respects(st, st', q) && OwnsFit(st, q, owned)
    ensures OwnsFit(st', q, owned)
  {
    forall i | i in owned ensures OwnedFits(st', q, i, owned[i]) {
      assert OwnedFits(st, q, i, owned[i]);
    }
  }

  lemma OtherPcFits(st: Store, st': Store, q: Pid, pc: Pc)
    requires StoreFits(st) && StoreFits(st') && Respects(st, st', q) && PcFits(st, q, pc)
    requires pc.Out? || Quiet(st, st')
    ensures PcFits(st', q, pc)
  {
  }

  lemma OtherFits(st: Store, st': Store, q: Pid, me: Process)
    requires StoreFits(st) && StoreFits(st') && Respects(st, st', q)
    requires ProcFits(st, q, me) && LocksUsed(st, q, me)
    requires me.pc.Out? || Quiet(st, st')
    ensures ProcFits(st', q, me) && LocksUsed(st', q, me)
  {
    OtherOwnsFit(st, st', q, me.owned);
    OtherPcFits(st, st', q, me.pc);
  }

  ghost predicate Mine(st: Store, p: Pid, me: Process)
  {
    StoreFits(st) && ProcFits(st, p, me) && LocksUsed(st, p, me)
  }

  predicate LockedByOther(st: Store, inode: Inode, p: Pid) { inode in st.locks && st.locks[inode] != p }

  /** A step of process `p` changes nothing that others rely on. */
  ghost predicate Fair(st: Store, st': Store, p: Pid, out: bool)
  {
    && (forall i :: LockedByOther(st, i, p) ==> i in st'.locks && st'.locks[i] == st.locks[i])
    && (forall i :: LockedByOther(st', i, p) ==> i in st.locks && st.locks[i] == st'.locks[i])
    && (forall name :: name in st.leases && LockedByOther(st, st.leases[name], p) ==>
          && name in st'.leases && st'.leases[name] == st.leases[name]
          && (name in st.trees <==> name in st'.trees))
    && (forall dir :: dir in st.active && st.active[dir].lease.Some? && LockedByOther(st, st.active[dir].lease.value, p) ==>
          dir in st'.active && st'.active[dir] == st.active[dir])
    && (forall i :: i in st.files ==> i in st'.files && st'.files[i] == st.files[i])
    && (out ==> Quiet(st, st'))
    && st.failed <= st'.failed
  }

  lemma FairRespects(st: Store, st': Store, p: Pid, out: bool, q: Pid)
    requires Fair(st, st', p, out) && q != p
    ensures Respects(st, st', q)
  {
  }

  /** A step of process `p` with this effect is sound: for itself and for everyone else. */
  ghost predicate Sound(st: Store, p: Pid, me: Process, e: Effect)
  {
    && (e.fault ==> me.pc.ClaimSeen? && me.pc.name in st.strays)
    && Mine(e.store, p, e.me)
    && Fair(st, e.store, p, me.pc.Out?)
    && (e.me.pc.Out? <==> me.pc.Out?)
  }

  /** What a process owns survives changes that its locks protect it from. */
  lemma OwnsStillFit(st: Store, st': Store, p: Pid, owned: map<Inode, Owned>)
    requires OwnsFit(st, p, owned)
    requires forall i :: i in owned ==> i in st'.locks && st'.locks[i] == p && i in st'.files && st'.files[i] == st.files[i]
    requires forall i :: i in owned && !owned[i].unlinked ==>
               && owned[i].name in st'.leases && st'.leases[owned[i].name] == i
               && (owned[i].name in st'.trees <==> owned[i].name in st.trees)
    ensures OwnsFit(st', p, owned)
  {
    forall i | i in owned ensures OwnedFits(st', p, i, owned[i]) {
      assert OwnedFits(st, p, i, owned[i]);
    }
  }

  lemma CreateFits(st: Store, p: Pid, me: Process, name: Name, inode: Inode)
    requires Mine(st, p, me) && me.pc.In? && name !in st.leases && inode !in st.files
    ensures var st' := Perform(st, p, me, CreateLease(name, inode)).store; StoreFits(st') && OwnsFit(st', p, me.owned)
  {
    var st' := Perform(st, p, me, CreateLease(name, inode)).store;
    OwnsStillFit(st, st', p, me.owned);
  }

  lemma CreateIsSound(st: Store, p: Pid, me: Process, name: Name, inode: Inode)
    requires Mine(st, p, me) && me.pc.In? && name !in st.leases && inode !in st.files
    ensures Sound(st, p, me, Perform(st, p, me, CreateLease(name, inode)))
  {
    CreateFits(st, p, me, name, inode);
    assert Fair(st, Perform(st, p, me, CreateLease(name, inode)).store, p, false);
  }

  lemma MakeRunFits(st: Store, p: Pid, me: Process, dir: Dir, inode: Inode)
    requires Mine(st, p, me) && me.pc.In? && me.run.NoRun? && dir !in st.active && inode !in st.files
    ensures var st' := Perform(st, p, me, MakeRun(dir, inode)).store; StoreFits(st') && OwnsFit(st', p, me.owned)
  {
    var st' := Perform(st, p, me, MakeRun(dir, inode)).store;
    OwnsStillFit(st, st', p, me.owned);
  }

  lemma MakeRunIsSound(st: Store, p: Pid, me: Process, dir: Dir, inode: Inode)
    requires Mine(st, p, me) && me.pc.In? && me.run.NoRun? && dir !in st.active && inode !in st.files
    ensures Sound(st, p, me, Perform(st, p, me, MakeRun(dir, inode)))
  {
    MakeRunFits(st, p, me, dir, inode);
    assert Fair(st, Perform(st, p, me, MakeRun(dir, inode)).store, p, false);
  }

  lemma DetachIsSound(st: Store, p: Pid, me: Process, inode: Inode)
    requires Mine(st, p, me) && me.pc.In? && me.run.Attached?
    ensures Sound(st, p, me, Perform(st, p, me, DetachRun(inode)))
  {
    var st' := Perform(st, p, me, DetachRun(inode)).store;
    assert StoreFits(st');
    OwnsStillFit(st, st', p, me.owned);
    assert Fair(st, st', p, false);
  }

  lemma DeleteIsSound(st: Store, p: Pid, me: Process, inode: Inode)
    requires Mine(st, p, me) && me.pc.Out? && inode in me.owned && !me.owned[inode].removed
    ensures Sound(st, p, me, Perform(st, p, me, DeleteTree(inode)))
  {
    var e := Perform(st, p, me, DeleteTree(inode));
    assert OwnedFits(st, p, inode, me.owned[inode]);
    assert StoreFits(e.store);
    forall i | i in e.me.owned ensures OwnedFits(e.store, p, i, e.me.owned[i]) {
      assert OwnedFits(st, p, i, me.owned[i]);
    }
    assert Fair(st, e.store, p, true);
  }

  lemma UnlinkIsSound(st: Store, p: Pid, me: Process, inode: Inode)
    requires Mine(st, p, me) && me.pc.In? && inode in me.owned && me.owned[inode].removed && !me.owned[inode].unlinked
    ensures Sound(st, p, me, Perform(st, p, me, UnlinkLease(inode)))
  {
    var e := Perform(st, p, me, UnlinkLease(inode));
    assert OwnedFits(st, p, inode, me.owned[inode]);
    assert StoreFits(e.store);
    forall i | i in e.me.owned ensures OwnedFits(e.store, p, i, e.me.owned[i]) {
      assert OwnedFits(st, p, i, me.owned[i]);
    }
    assert Fair(st, e.store, p, false);
  }

  lemma CloseTrashIsSound(st: Store, p: Pid, me: Process, inode: Inode)
    requires Mine(st, p, me) && (me.pc.Out? || me.pc.In?) && inode in me.owned
    ensures Sound(st, p, me, Perform(st, p, me, CloseTrash(inode)))
  {
    var e := Perform(st, p, me, CloseTrash(inode));
    assert OwnedFits(st, p, inode, me.owned[inode]);
    assert StoreFits(e.store);
    OwnsStillFit(st, e.store, p, e.me.owned);
    assert Fair(st, e.store, p, me.pc.Out?);
  }

  lemma CloseRunIsSound(st: Store, p: Pid, me: Process)
    requires Mine(st, p, me) && me.pc.Out? && !me.run.NoRun?
    ensures Sound(st, p, me, Perform(st, p, me, CloseRun))
  {
    var e := Perform(st, p, me, CloseRun);
    assert StoreFits(e.store);
    OwnsStillFit(st, e.store, p, e.me.owned);
    assert Fair(st, e.store, p, true);
  }

  /** The process only moves on, or reports a failed check. */
  lemma MoveIsSound(st: Store, p: Pid, me: Process, pc: Pc, fault: bool)
    requires Mine(st, p, me) && Working(me.pc).None? && !me.pc.Out?
    requires Working(pc).None? && !pc.Out? && (MakesRun(pc) ==> me.run.NoRun?) && PcFits(st, p, pc)
    requires fault ==> me.pc.ClaimSeen? && me.pc.name in st.strays
    ensures Sound(st, p, me, Effect(st, me.(pc := pc), fault))
  {
  }

  /** The process locks a lease file nobody holds. */
  lemma LockFits(st: Store, p: Pid, me: Process, inode: Inode, pc: Pc)
    requires Mine(st, p, me) && Working(me.pc).None? && !me.pc.Out?
    requires inode !in st.locks && inode in st.files && (MakesRun(pc) ==> me.run.NoRun?)
    requires Working(pc) == Some(inode) && PcFits(Lock(st, p, inode), p, pc)
    ensures var st' := Lock(st, p, inode); StoreFits(st') && OwnsFit(st', p, me.owned)
  {
    var st' := Lock(st, p, inode);
    forall i | i in me.owned ensures i != inode {
      assert OwnedFits(st, p, i, me.owned[i]);
    }
    OwnsStillFit(st, st', p, me.owned);
  }

  lemma LockIsSound(st: Store, p: Pid, me: Process, inode: Inode, pc: Pc)
    requires Mine(st, p, me) && Working(me.pc).None? && !me.pc.Out?
    requires inode !in st.locks && inode in st.files && (MakesRun(pc) ==> me.run.NoRun?)
    requires Working(pc) == Some(inode) && PcFits(Lock(st, p, inode), p, pc)
    ensures Sound(st, p, me, Effect(Lock(st, p, inode), me.(pc := pc), false))
  {
    LockFits(st, p, me, inode, pc);
    assert Fair(st, Lock(st, p, inode), p, false);
  }

  /** The process gives up the lock of the operation in progress. */
  lemma UnlockFits(st: Store, p: Pid, me: Process, inode: Inode, pc: Pc)
    requires Mine(st, p, me) && Working(me.pc) == Some(inode) && inode in st.locks && st.locks[inode] == p
    requires Working(pc).None? && !pc.Out? && (MakesRun(pc) ==> me.run.NoRun?) && PcFits(Unlock(st, inode), p, pc)
    ensures var st' := Unlock(st, inode); StoreFits(st') && OwnsFit(st', p, me.owned)
  {
    var st' := Unlock(st, inode);
    OwnsStillFit(st, st', p, me.owned);
  }

  lemma UnlockIsSound(st: Store, p: Pid, me: Process, inode: Inode, pc: Pc)
    requires Mine(st, p, me) && Working(me.pc) == Some(inode) && inode in st.locks && st.locks[inode] == p
    requires Working(pc).None? && !pc.Out? && (MakesRun(pc) ==> me.run.NoRun?) && PcFits(Unlock(st, inode), p, pc)
    ensures Sound(st, p, me, Effect(Unlock(st, inode), me.(pc := pc), false))
  {
    UnlockFits(st, p, me, inode, pc);
    assert Fair(st, Unlock(st, inode), p, false);
  }

  /** The process takes over what it has locked. */
  lemma OwnIsSound(st: Store, p: Pid, me: Process, name: Name, inode: Inode)
    requires Mine(st, p, me) && (me.pc.ClaimLocked? || me.pc.NewMade?) && me.pc.name == name && me.pc.inode == inode
    requires name in st.trees
    ensures Sound(st, p, me, Effect(st, me.(pc := In, owned := me.owned[inode := Owned(name, false, false)]), false))
  {
    var me' := me.(pc := In, owned := me.owned[inode := Owned(name, false, false)]);
    forall i | i in me'.owned ensures OwnedFits(st, p, i, me'.owned[i]) {
      if i != inode {
        assert OwnedFits(st, p, i, me.owned[i]);
      }
    }
  }

  lemma MadeFits(st: Store, p: Pid, me: Process, name: Name, inode: Inode, spare: Inode)
    requires Mine(st, p, me) && me.pc == NewLocked(name, inode) && name !in st.trees && spare !in st.files
    ensures var st' := MakeTree(st, name, spare); StoreFits(st') && OwnsFit(st', p, me.owned)
  {
    var st' := MakeTree(st, name, spare);
    OwnsStillFit(st, st', p, me.owned);
  }

  lemma MadeIsSound(st: Store, p: Pid, me: Process, name: Name, inode: Inode, spare: Inode)
    requires Mine(st, p, me) && me.pc == NewLocked(name, inode) && name !in st.trees && spare !in st.files
    ensures Sound(st, p, me, Effect(MakeTree(st, name, spare), me.(pc := NewMade(name, inode)), false))
  {
    MadeFits(st, p, me, name, inode, spare);
    assert Fair(st, MakeTree(st, name, spare), p, false);
  }

  lemma LateFailureFits(st: Store, p: Pid, me: Process, name: Name, inode: Inode)
    requires Mine(st, p, me) && me.pc == NewMade(name, inode)
    ensures var st' := Raise(st, me).store; StoreFits(st') && OwnsFit(st', p, me.owned)
  {
    var st' := Raise(st, me).store;
    OwnsStillFit(st, st', p, me.owned);
  }

  lemma LateFailureIsSound(st: Store, p: Pid, me: Process, name: Name, inode: Inode)
    requires Mine(st, p, me) && me.pc == NewMade(name, inode)
    ensures Sound(st, p, me, Raise(st, me))
  {
    LateFailureFits(st, p, me, name, inode);
    assert Fair(st, Raise(st, me).store, p, false);
  }

  lemma TakeLeaseFits(st: Store, p: Pid, me: Process, name: Name, inode: Inode)
    requires Mine(st, p, me) && me.pc.NewFailed? && me.pc.name == name && me.pc.inode == inode
    ensures StoreFits(TakeLease(st, name)) && OwnsFit(TakeLease(st, name), p, me.owned)
  {
    var st' := TakeLease(st, name);
    forall i | i in me.owned ensures i != inode {
      assert OwnedFits(st, p, i, me.owned[i]);
    }
    OwnsStillFit(st, st', p, me.owned);
  }

  lemma TakeLeaseIsSound(st: Store, p: Pid, me: Process, name: Name, inode: Inode, pc: Pc)
    requires Mine(st, p, me) && me.pc.NewFailed? && me.pc.name == name && me.pc.inode == inode
    requires pc == In || pc == NewCleared(name)
    ensures Sound(st, p, me, Effect(TakeLease(st, name), me.(pc := pc), false))
  {
    TakeLeaseFits(st, p, me, name, inode);
    assert Fair(st, TakeLease(st, name), p, false);
  }

  lemma ClearFits(st: Store, p: Pid, me: Process, name: Name)
    requires Mine(st, p, me) && me.pc == NewCleared(name)
    ensures var st' := ClearTree(st, name); StoreFits(st') && OwnsFit(st', p, me.owned)
  {
    var st' := ClearTree(st, name);
    OwnsStillFit(st, st', p, me.owned);
  }

  lemma ClearIsSound(st: Store, p: Pid, me: Process, name: Name)
    requires Mine(st, p, me) && me.pc == NewCleared(name)
    ensures Sound(st, p, me, Effect(ClearTree(st, name), me.(pc := In), false))
  {
    ClearFits(st, p, me, name);
    assert Fair(st, ClearTree(st, name), p, false);
  }

  lemma NewIsSound(st: Store, p: Pid, me: Process, spare: Inode)
    requires Mine(st, p, me) && spare !in st.files
    requires me.pc.NewLease? || me.pc.NewLocked? || me.pc.NewMade? || me.pc.NewFailed? || me.pc.NewCleared?
    ensures Sound(st, p, me, Proceed(st, p, me, spare))
  {
    match me.pc {
      case NewLease(name, inode) => LockIsSound(st, p, me, inode, NewLocked(name, inode));
      case NewLocked(name, inode) =>
        if name in st.trees { UnlockIsSound(st, p, me, inode, NewFailed(name, inode, false)); }
        else { MadeIsSound(st, p, me, name, inode, spare); }
      case NewMade(name, inode) => OwnIsSound(st, p, me, name, inode);
      case NewFailed(name, inode, clear) => TakeLeaseIsSound(st, p, me, name, inode, if clear then NewCleared(name) else In);
      case NewCleared(name) => ClearIsSound(st, p, me, name);
    }
  }

  lemma ClaimIsSound(st: Store, p: Pid, me: Process, spare: Inode)
    requires Mine(st, p, me) && (me.pc.ClaimSeen? || me.pc.ClaimOpened? || me.pc.ClaimLocked?)
    ensures Sound(st, p, me, Proceed(st, p, me, spare))
  {
    match me.pc {
      case ClaimSeen(name, tree) =>
        if name in st.leases { MoveIsSound(st, p, me, ClaimOpened(name, st.leases[name], tree), false); }
        else { MoveIsSound(st, p, me, In, name in st.trees); }
      case ClaimOpened(name, inode, tree) =>
        if inode in st.locks { MoveIsSound(st, p, me, In, false); }
        else { LockIsSound(st, p, me, inode, ClaimLocked(name, inode, tree)); }
      case ClaimLocked(name, inode, tree) =>
        if name !in st.trees { UnlockIsSound(st, p, me, inode, In); }
        else { OwnIsSound(st, p, me, name, inode); }
    }
  }

  lemma RetiredFits(st: Store, p: Pid, me: Process, name: Name, inode: Inode)
    requires Mine(st, p, me) && me.pc == RetireLocked(name, inode)
    ensures var st' := Unlock(st.(leases := st.leases - {name}), inode); StoreFits(st') && OwnsFit(st', p, me.owned)
  {
    var st' := Unlock(st.(leases := st.leases - {name}), inode);
    forall i | i in me.owned ensures i != inode && (!me.owned[i].unlinked ==> me.owned[i].name != name) {
      assert OwnedFits(st, p, i, me.owned[i]);
    }
    OwnsStillFit(st, st', p, me.owned);
  }

  lemma RetiredIsSound(st: Store, p: Pid, me: Process, name: Name, inode: Inode)
    requires Mine(st, p, me) && me.pc == RetireLocked(name, inode)
    ensures Sound(st, p, me, Effect(Unlock(st.(leases := st.leases - {name}), inode), me.(pc := In), false))
  {
    RetiredFits(st, p, me, name, inode);
    assert Fair(st, Unlock(st.(leases := st.leases - {name}), inode), p, false);
  }

  lemma RetireIsSound(st: Store, p: Pid, me: Process, spare: Inode)
    requires Mine(st, p, me) && (me.pc.RetireSeen? || me.pc.RetireOpened? || me.pc.RetireLocked?)
    ensures Sound(st, p, me, Proceed(st, p, me, spare))
  {
    match me.pc {
      case RetireSeen(name) => MoveIsSound(st, p, me, RetireOpened(name, st.leases[name]), false);
      case RetireOpened(name, inode) =>
        if inode in st.locks { MoveIsSound(st, p, me, In, false); }
        else { LockIsSound(st, p, me, inode, RetireLocked(name, inode)); }
      case RetireLocked(name, inode) => RetiredIsSound(st, p, me, name, inode);
    }
  }

  /** A lease file is put into a directory that has none. */
  lemma RunLeaseFits(st: Store, p: Pid, me: Process, dir: Dir, spare: Inode, pc: Pc)
    requires Mine(st, p, me) && Working(me.pc).None? && !me.pc.Out?
    requires dir in st.active && st.active[dir].lease.None? && spare !in st.files
    requires pc == StaleOpened(dir, spare, st.active[dir].id) || (pc == RunLeased(dir, spare) && me.run.NoRun?)
    ensures var st' := CreateRunLease(st, dir, spare); StoreFits(st') && OwnsFit(st', p, me.owned)
  {
    var st' := CreateRunLease(st, dir, spare);
    OwnsStillFit(st, st', p, me.owned);
  }

  lemma RunLeaseIsSound(st: Store, p: Pid, me: Process, dir: Dir, spare: Inode, pc: Pc)
    requires Mine(st, p, me) && Working(me.pc).None? && !me.pc.Out?
    requires dir in st.active && st.active[dir].lease.None? && spare !in st.files
    requires pc == StaleOpened(dir, spare, st.active[dir].id) || (pc == RunLeased(dir, spare) && me.run.NoRun?)
    ensures Sound(st, p, me, Effect(CreateRunLease(st, dir, spare), me.(pc := pc), false))
  {
    RunLeaseFits(st, p, me, dir, spare, pc);
    assert Fair(st, CreateRunLease(st, dir, spare), p, false);
  }

  lemma StaleMoveFits(st: Store, p: Pid, me: Process, dir: Dir, inode: Inode, id: Inode)
    requires Mine(st, p, me) && me.pc == StaleLocked(dir, inode, id)
    ensures var st' := Unlock(st.(active := st.active - {dir}), inode); StoreFits(st') && OwnsFit(st', p, me.owned)
  {
    var st' := Unlock(st.(active := st.active - {dir}), inode);
    OwnsStillFit(st, st', p, me.owned);
  }

  lemma StaleMoveIsSound(st: Store, p: Pid, me: Process, dir: Dir, inode: Inode, id: Inode)
    requires Mine(st, p, me) && me.pc == StaleLocked(dir, inode, id)
    ensures Sound(st, p, me, Effect(Unlock(st.(active := st.active - {dir}), inode), me.(pc := In), false))
  {
    StaleMoveFits(st, p, me, dir, inode, id);
    assert Fair(st, Unlock(st.(active := st.active - {dir}), inode), p, false);
  }

  lemma StaleIsSound(st: Store, p: Pid, me: Process, spare: Inode)
    requires Mine(st, p, me) && (me.pc.StaleSeen? || me.pc.StaleOpened? || me.pc.StaleLocked?) && spare !in st.files
    ensures Sound(st, p, me, Proceed(st, p, me, spare))
  {
    match me.pc {
      case StaleSeen(dir, id) =>
        if st.active[dir].lease.Some? { MoveIsSound(st, p, me, StaleOpened(dir, st.active[dir].lease.value, id), false); }
        else { RunLeaseIsSound(st, p, me, dir, spare, StaleOpened(dir, spare, id)); }
      case StaleOpened(dir, inode, id) =>
        if inode in st.locks { MoveIsSound(st, p, me, In, false); }
        else { LockIsSound(st, p, me, inode, StaleLocked(dir, inode, id)); }
      case StaleLocked(dir, inode, id) => StaleMoveIsSound(st, p, me, dir, inode, id);
    }
  }

  lemma AttachIsSound(st: Store, p: Pid, me: Process, dir: Dir, inode: Inode)
    requires Mine(st, p, me) && me.pc == RunLocked(dir, inode)
    ensures Sound(st, p, me, Effect(st, me.(pc := In, run := Attached(dir, inode)), false))
  {
  }

  /** After a failure the directory loses its lease file, then goes. */
  lemma DiscardFits(st: Store, p: Pid, me: Process, dir: Dir, active: map<Dir, Entry>, pc: Pc)
    requires Mine(st, p, me) && me.pc == RunFailed(dir)
    requires (active == st.active - {dir} && pc == In) || (active == st.active[dir := st.active[dir].(lease := None)] && pc == me.pc)
    ensures var st' := st.(active := active); StoreFits(st') && OwnsFit(st', p, me.owned)
  {
    var st' := st.(active := active);
    OwnsStillFit(st, st', p, me.owned);
  }

  lemma DiscardIsSound(st: Store, p: Pid, me: Process, dir: Dir, active: map<Dir, Entry>, pc: Pc)
    requires Mine(st, p, me) && me.pc == RunFailed(dir)
    requires (active == st.active - {dir} && pc == In) || (active == st.active[dir := st.active[dir].(lease := None)] && pc == me.pc)
    ensures Sound(st, p, me, Effect(st.(active := active), me.(pc := pc), false))
  {
    DiscardFits(st, p, me, dir, active, pc);
    assert Fair(st, st.(active := active), p, false);
  }

  lemma RunIsSound(st: Store, p: Pid, me: Process, spare: Inode)
    requires Mine(st, p, me) && MakesRun(me.pc) && spare !in st.files
    ensures Sound(st, p, me, Proceed(st, p, me, spare))
  {
    match me.pc {
      case RunMade(dir) => RunLeaseIsSound(st, p, me, dir, spare, RunLeased(dir, spare));
      case RunLeased(dir, inode) => LockIsSound(st, p, me, inode, RunLocked(dir, inode));
      case RunLocked(dir, inode) => AttachIsSound(st, p, me, dir, inode);
      case RunFailed(dir) =>
        if st.active[dir].lease.Some? { DiscardIsSound(st, p, me, dir, st.active[dir := st.active[dir].(lease := None)], me.pc); }
        else { DiscardIsSound(st, p, me, dir, st.active - {dir}, In); }
    }
  }

  lemma AdvanceIsSound(st: Store, p: Pid, me: Process, spare: Inode)
    requires Mine(st, p, me) && !me.pc.Out? && !me.pc.In? && spare !in st.files
    ensures Sound(st, p, me, Proceed(st, p, me, spare))
  {
    if MakesRun(me.pc) {
      RunIsSound(st, p, me, spare);
    } else if me.pc.ClaimSeen? || me.pc.ClaimOpened? || me.pc.ClaimLocked? {
      ClaimIsSound(st, p, me, spare);
    } else if me.pc.RetireSeen? || me.pc.RetireOpened? || me.pc.RetireLocked? {
      RetireIsSound(st, p, me, spare);
    } else if me.pc.StaleSeen? || me.pc.StaleOpened? || me.pc.StaleLocked? {
      StaleIsSound(st, p, me, spare);
    } else {
      NewIsSound(st, p, me, spare);
    }
  }

  lemma ConstructorRaiseIsSound(st: Store, p: Pid, me: Process)
    requires Mine(st, p, me) && (me.pc.NewLease? || me.pc.NewLocked? || me.pc.NewMade?)
    ensures Sound(st, p, me, Raise(st, me))
  {
    match me.pc {
      case NewLease(name, inode) => MoveIsSound(st, p, me, NewFailed(name, inode, true), false);
      case NewLocked(name, inode) => UnlockIsSound(st, p, me, inode, NewFailed(name, inode, true));
      case NewMade(name, inode) => LateFailureIsSound(st, p, me, name, inode);
    }
  }

  lemma RunRaiseIsSound(st: Store, p: Pid, me: Process)
    requires Mine(st, p, me) && (me.pc.RunMade? || me.pc.RunLeased? || me.pc.RunLocked?)
    ensures Sound(st, p, me, Raise(st, me))
  {
    match me.pc {
      case RunMade(dir) => MoveIsSound(st, p, me, RunFailed(dir), false);
      case RunLeased(dir, _) => MoveIsSound(st, p, me, RunFailed(dir), false);
      case RunLocked(dir, inode) => UnlockIsSound(st, p, me, inode, RunFailed(dir));
    }
  }

  lemma RaiseIsSound(st: Store, p: Pid, me: Process)
    requires Mine(st, p, me) && !me.pc.Out? && !me.pc.In?
    ensures Sound(st, p, me, Raise(st, me))
  {
    if me.pc.NewLease? || me.pc.NewLocked? || me.pc.NewMade? {
      ConstructorRaiseIsSound(st, p, me);
    } else if me.pc.RunMade? || me.pc.RunLeased? || me.pc.RunLocked? {
      RunRaiseIsSound(st, p, me);
    } else if Working(me.pc).Some? {
      WorkingIsLocked(st, p, me.pc);
      UnlockIsSound(st, p, me, Working(me.pc).value, In);
    } else {
      MoveIsSound(st, p, me, In, false);
    }
  }

  lemma WorkingIsLocked(st: Store, p: Pid, pc: Pc)
    requires PcFits(st, p, pc) && Working(pc).Some?
    ensures Working(pc).value in st.locks && st.locks[Working(pc).value] == p
  {
  }

  /** Every step that touches the store is sound. */
  lemma PerformIsSound(s: Cache, p: Pid, a: Action)
    requires Inv(s) && Enabled(s, p, a) && !Passive(a) && !a.Crash?
    ensures Sound(s.store, p, s.procs[p], Perform(s.store, p, s.procs[p], a))
  {
    var st, me := s.store, s.procs[p];
    assert Mine(st, p, me);
    match a {
      case CreateLease(name, inode) => CreateIsSound(st, p, me, name, inode);
      case MakeRun(dir, inode) => MakeRunIsSound(st, p, me, dir, inode);
      case Advance(spare) => AdvanceIsSound(st, p, me, spare);
      case Fail => RaiseIsSound(st, p, me);
      case Abandon => MoveIsSound(st, p, me, In, false);
      case DetachRun(inode) => DetachIsSound(st, p, me, inode);
      case DeleteTree(inode) => DeleteIsSound(st, p, me, inode);
      case UnlinkLease(inode) => UnlinkIsSound(st, p, me, inode);
      case CloseTrash(inode) => CloseTrashIsSound(st, p, me, inode);
      case CloseRun => CloseRunIsSound(st, p, me);
    }
  }

  lemma SoundKeepsInv(s: Cache, t: Cache, p: Pid, e: Effect)
    requires Inv(s) && p in s.procs && Sound(s.store, p, s.procs[p], e)
    requires t == s.(store := e.store, procs := s.procs[p := e.me], fault := s.fault || e.fault)
    ensures Inv(t)
  {
    forall q | q in t.procs && q != p
      ensures ProcFits(t.store, q, t.procs[q]) && LocksUsed(t.store, q, t.procs[q])
    {
      FairRespects(s.store, t.store, p, s.procs[p].pc.Out?, q);
      OtherFits(s.store, t.store, q, s.procs[q]);
    }
  }

  lemma CrashKeepsInv(s: Cache, p: Pid)
    requires Inv(s) && p in s.procs
    ensures Inv(Apply(s, p, Crash))
  {
    var t := Apply(s, p, Crash);
    forall q | q in t.procs
      ensures ProcFits(t.store, q, t.procs[q]) && LocksUsed(t.store, q, t.procs[q])
    {
      OtherFits(s.store, t.store, q, s.procs[q]);
    }
  }

  /** Starting, entering, leaving and looking change only the process itself. */
  lemma PassiveFits(s: Cache, p: Pid, a: Action)
    requires Inv(s) && Enabled(s, p, a) && Passive(a)
    ensures var me := Apply(s, p, a).procs[p]; ProcFits(s.store, p, me) && LocksUsed(s.store, p, me)
  {
    var me := Apply(s, p, a).procs[p];
    if !a.Start? {
      var before := s.procs[p];
      assert ProcFits(s.store, p, before) && LocksUsed(s.store, p, before);
      assert me.owned == before.owned && me.run == before.run && Working(me.pc).None? && Working(before.pc).None?;
      assert PcFits(s.store, p, me.pc);
    }
  }

  lemma PassiveKeepsInv(s: Cache, p: Pid, a: Action)
    requires Inv(s) && Enabled(s, p, a) && Passive(a)
    ensures Inv(Apply(s, p, a))
  {
    var t := Apply(s, p, a);
    PassiveFits(s, p, a);
    assert t.store == s.store && t.fault == s.fault && (forall q :: q in s.procs && q != p ==> t.procs[q] == s.procs[q]);
    assert forall q :: q in t.procs ==> q == p || q in s.procs;
  }

  lemma StepKeepsInv(s: Cache, p: Pid, a: Action)
    requires Inv(s) && Enabled(s, p, a)
    ensures Inv(Apply(s, p, a))
  {
    if a.Crash? {
      CrashKeepsInv(s, p);
    } else if Passive(a) {
      PassiveKeepsInv(s, p, a);
    } else {
      PerformIsSound(s, p, a);
      SoundKeepsInv(s, Apply(s, p, a), p, Perform(s.store, p, s.procs[p], a));
    }
  }

  /** No step of another process changes what a lock of `p` protects. */
  lemma StepRespects(s: Cache, q: Pid, a: Action, p: Pid)
    requires Inv(s) && Enabled(s, q, a) && p != q
    ensures Respects(s.store, Apply(s, q, a).store, p)
  {
    if !a.Crash? && !Passive(a) {
      PerformIsSound(s, q, a);
      FairRespects(s.store, Apply(s, q, a).store, q, s.procs[q].pc.Out?, p);
    }
  }

  // ----- whole runs -----

  const EMPTY: Cache := Cache(Store(map[], map[], map[], map[], map[], {}, {}), None, map[], false)

  predicate ValidRun(s: Cache, run: seq<(Pid, Action)>)
    decreases |run|
  {
    run == [] || (Enabled(s, run[0].0, run[0].1) && ValidRun(Apply(s, run[0].0, run[0].1), run[1..]))
  }

  function Final(s: Cache, run: seq<(Pid, Action)>): (t: Cache)
    requires ValidRun(s, run)
    decreases |run|
  {
    if run == [] then s else Final(Apply(s, run[0].0, run[0].1), run[1..])
  }

  lemma {:induction false} RunKeepsInv(s: Cache, run: seq<(Pid, Action)>)
    requires Inv(s) && ValidRun(s, run)
    ensures Inv(Final(s, run))
    decreases |run|
  {
    if run != [] {
      StepKeepsInv(s, run[0].0, run[0].1);
      RunKeepsInv(Apply(s, run[0].0, run[0].1), run[1..]);
    }
  }

  /** Process `p` owns the trash called `name`, lease file included. */
  predicate Owns(s: Cache, p: Pid, name: Name, inode: Inode)
  {
    p in s.procs && inode in s.procs[p].owned && s.procs[p].owned[inode].name == name && !s.procs[p].owned[inode].unlinked
  }

  /**
   In every reachable state no trash has two owners, and a trash tree without its lease file is
   exactly a stray: a tree whose constructor failed after making it and took the lease away.
   */
  lemma OwnershipIsExclusive(run: seq<(Pid, Action)>)
    requires ValidRun(EMPTY, run)
    ensures var s := Final(EMPTY, run);
            && (forall name :: name in s.store.trees && name !in s.store.leases <==> name in s.store.strays)
            && s.store.strays <= s.store.failed
            && (s.fault ==> s.store.failed != {})
            && (forall p, q, name, i, j :: Owns(s, p, name, i) && Owns(s, q, name, j) ==> p == q && i == j)
  {
    RunKeepsInv(EMPTY, run);
    var s := Final(EMPTY, run);
    forall p, q, name, i, j | Owns(s, p, name, i) && Owns(s, q, name, j) ensures p == q && i == j {
      assert OwnedFits(s.store, p, i, s.procs[p].owned[i]);
      assert OwnedFits(s.store, q, j, s.procs[q].owned[j]);
    }
  }

  /**
   Of all the integrity checks of the script (a lease or an entry that changed, a lease that is
   missing, a fresh entry that exists or is locked) only one can fail, and exactly when: a
   claimer that opens the lease of a stray finds none.
   */
  lemma OnlyStraysFailChecks(run: seq<(Pid, Action)>, p: Pid, a: Action)
    requires ValidRun(EMPTY, run) && Enabled(Final(EMPTY, run), p, a)
    ensures var s := Final(EMPTY, run);
            Apply(s, p, a).fault <==>
              s.fault || (a.Advance? && s.procs[p].pc.ClaimSeen? && s.procs[p].pc.name in s.store.strays)
  {
    var s := Final(EMPTY, run);
    if !Passive(a) && !a.Crash? {
      RunIsMine(run, p, a);
      RunStepIsSound(run, p, a);
      ChecksFail(s.store, p, s.procs[p], a);
    }
  }

  lemma RunStepIsSound(run: seq<(Pid, Action)>, p: Pid, a: Action)
    requires ValidRun(EMPTY, run) && Enabled(Final(EMPTY, run), p, a) && !Passive(a) && !a.Crash?
    ensures var s := Final(EMPTY, run); Sound(s.store, p, s.procs[p], Perform(s.store, p, s.procs[p], a))
  {
    RunKeepsInv(EMPTY, run);
    PerformIsSound(Final(EMPTY, run), p, a);
  }

  lemma ChecksFail(st: Store, p: Pid, me: Process, a: Action)
    requires StoreFits(st) && Possible(st, me, a) && Sound(st, p, me, Perform(st, p, me, a))
    requires me.pc.ClaimSeen? ==> a.Advance? || a.Fail?
    ensures Perform(st, p, me, a).fault <==> a.Advance? && me.pc.ClaimSeen? && me.pc.name in st.strays
  {
  }

  /** A constructor of the run fails between making its tree and returning it. */
  predicate LateFailure(s: Cache, step: (Pid, Action))
  {
    step.1.Fail? && step.0 in s.procs && s.procs[step.0].pc.NewMade?
  }

  predicate NoLateFailure(s: Cache, run: seq<(Pid, Action)>)
    requires ValidRun(s, run)
    decreases |run|
  {
    run == [] || (!LateFailure(s, run[0]) && NoLateFailure(Apply(s, run[0].0, run[0].1), run[1..]))
  }

  lemma ProceedKeepsFailed(st: Store, p: Pid, me: Process, spare: Inode)
    ensures Proceed(st, p, me, spare).store.failed == st.failed
  {
  }

  lemma OnlyLateFailures(s: Cache, p: Pid, a: Action)
    requires Enabled(s, p, a)
    ensures Apply(s, p, a).store.failed == s.store.failed || LateFailure(s, (p, a))
  {
    if a.Advance? {
      ProceedKeepsFailed(s.store, p, s.procs[p], a.inode);
    }
  }

  lemma {:induction false} NothingFailedLate(s: Cache, run: seq<(Pid, Action)>)
    requires ValidRun(s, run) && NoLateFailure(s, run)
    ensures Final(s, run).store.failed == s.store.failed
    decreases |run|
  {
    if run != [] {
      OnlyLateFailures(s, run[0].0, run[0].1);
      NothingFailedLate(Apply(s, run[0].0, run[0].1), run[1..]);
    }
  }

  /** Unless a constructor fails late, every tree has its lease file and no integrity check ever fails. */
  lemma TreesAreLeasedWithoutLateFailures(run: seq<(Pid, Action)>)
    requires ValidRun(EMPTY, run) && NoLateFailure(EMPTY, run)
    ensures var s := Final(EMPTY, run); !s.fault && forall name :: name in s.store.trees ==> name in s.store.leases
  {
    RunKeepsInv(EMPTY, run);
    NothingFailedLate(EMPTY, run);
  }

  lemma {:induction false} Then(s0: Cache, run: seq<(Pid, Action)>, s: Cache, p: Pid, a: Action)
    returns (more: seq<(Pid, Action)>, t: Cache)
    requires ValidRun(s0, run) && Final(s0, run) == s && Enabled(s, p, a)
    ensures more == run + [(p, a)] && t == Apply(s, p, a) && ValidRun(s0, more) && Final(s0, more) == t
    decreases |run|
  {
    more, t := run + [(p, a)], Apply(s, p, a);
    if run == [] {
      assert more[1..] == [];
    } else {
      var rest, u := Then(Apply(s0, run[0].0, run[0].1), run[1..], s, p, a);
      assert more[1..] == rest;
    }
  }

  lemma TreeIsMade() returns (r: seq<(Pid, Action)>, s: Cache)
    ensures ValidRun(EMPTY, r) && Final(EMPTY, r) == s
    ensures s == Cache(Store(map[7 := 1], map[7 := 0], map[], map[0 := 0], map[0 := TrashLease(7), 1 := TrashTree(7)], {}, {}),
                       Some(0), map[0 := Process(NewMade(7, 0), map[], NoRun)], false)
  {
    r, s := Then(EMPTY, [], EMPTY, 0, Start);
    r, s := Then(EMPTY, r, s, 0, Acquire);
    r, s := Then(EMPTY, r, s, 0, CreateLease(7, 0));
    r, s := Then(EMPTY, r, s, 0, Advance(1));
    r, s := Then(EMPTY, r, s, 0, Advance(1));
  }

  lemma TreeIsLeftBehind() returns (r: seq<(Pid, Action)>, s: Cache)
    ensures ValidRun(EMPTY, r) && Final(EMPTY, r) == s
    ensures s == Cache(Store(map[7 := 1], map[], map[], map[], map[0 := TrashLease(7), 1 := TrashTree(7)], {7}, {7}),
                       None, map[], false)
  {
    r, s := TreeIsMade();
    r, s := Then(EMPTY, r, s, 0, Fail);
    r, s := Then(EMPTY, r, s, 0, Advance(2));
    r, s := Then(EMPTY, r, s, 0, Crash);
  }

  /**
   The gap: a constructor that fails after making its tree takes the lease away before the tree.
   A crash in between leaves a tree that no process can claim, and the next one that tries
   reports that its lease is missing.
   */
  lemma LateFailureLeavesAnUnclaimableTree() returns (r: seq<(Pid, Action)>)
    ensures ValidRun(EMPTY, r)
    ensures var s := Final(EMPTY, r); s.fault && 7 in s.store.trees && 7 !in s.store.leases
  {
    var s;
    r, s := TreeIsLeftBehind();
    r, s := Then(EMPTY, r, s, 1, Start);
    r, s := Then(EMPTY, r, s, 1, Acquire);
    r, s := Then(EMPTY, r, s, 1, SeeTree(7));
    r, s := Then(EMPTY, r, s, 1, Advance(2));
  }

  /** Strays arise only in a failed constructor, and leave only with its deletion or a lease of the same name. */
  lemma StraysStay(run: seq<(Pid, Action)>, p: Pid, a: Action, name: Name)
    requires ValidRun(EMPTY, run) && Enabled(Final(EMPTY, run), p, a)
    ensures var s := Final(EMPTY, run);
            var t := Apply(s, p, a);
            && (name in s.store.strays && name !in t.store.strays ==>
                  (a.CreateLease? && a.name == name) || (a.Advance? && s.procs[p].pc == NewCleared(name)))
            && (name !in s.store.strays && name in t.store.strays ==>
                  a.Advance? && s.procs[p].pc.NewFailed? && s.procs[p].pc.name == name && name in s.store.failed)
  {
    var s := Final(EMPTY, run);
    if !Passive(a) && !a.Crash? {
      RunIsMine(run, p, a);
      StraysMove(s.store, p, s.procs[p], a, name);
    }
  }

  /** What every reachable process can rely on. */
  lemma RunIsMine(run: seq<(Pid, Action)>, p: Pid, a: Action)
    requires ValidRun(EMPTY, run) && Enabled(Final(EMPTY, run), p, a) && !Passive(a) && !a.Crash?
    ensures var s := Final(EMPTY, run);
            && Mine(s.store, p, s.procs[p]) && Possible(s.store, s.procs[p], a)
            && (s.procs[p].pc.Out? <==> s.holder != Some(p))
  {
    RunKeepsInv(EMPTY, run);
  }

  predicate Possible(st: Store, me: Process, a: Action)
  {
    && !Passive(a) && !a.Crash?
    && (a.DetachRun? ==> me.run.Attached?)
    && (a.DeleteTree? || a.UnlinkLease? || a.CloseTrash? ==> a.inode in me.owned)
    && (a.DeleteTree? ==> !me.owned[a.inode].removed)
    && (a.UnlinkLease? ==> me.pc.In? && me.owned[a.inode].removed && !me.owned[a.inode].unlinked)
    && (a.CloseRun? ==> !me.run.NoRun?)
  }

  lemma ProceedMovesStrays(st: Store, p: Pid, me: Process, spare: Inode, name: Name)
    requires PcFits(st, p, me.pc)
    ensures var st' := Proceed(st, p, me, spare).store;
            && (name in st.strays && name !in st'.strays ==> me.pc == NewCleared(name))
            && (name !in st.strays && name in st'.strays ==> me.pc.NewFailed? && me.pc.name == name && name in st.failed)
  {
  }

  lemma StraysMove(st: Store, p: Pid, me: Process, a: Action, name: Name)
    requires Mine(st, p, me) && Possible(st, me, a)
    ensures var st' := Perform(st, p, me, a).store;
            && (name in st.strays && name !in st'.strays ==>
                  (a.CreateLease? && a.name == name) || (a.Advance? && me.pc == NewCleared(name)))
            && (name !in st.strays && name in st'.strays ==>
                  a.Advance? && me.pc.NewFailed? && me.pc.name == name && name in st.failed)
  {
    if a.Advance? {
      ProceedMovesStrays(st, p, me, a.inode, name);
    }
  }

  lemma ProceedDeletesStrays(st: Store, p: Pid, me: Process, spare: Inode, name: Name)
    requires StoreFits(st) && PcFits(st, p, me.pc)
    requires name in st.trees && name !in Proceed(st, p, me, spare).store.trees
    ensures me.pc == NewCleared(name) && name in st.strays
  {
  }

  lemma TreesShrinkByOwner(st: Store, p: Pid, me: Process, a: Action, name: Name)
    requires Mine(st, p, me) && Possible(st, me, a)
    requires name in st.trees && name !in Perform(st, p, me, a).store.trees
    ensures || (a.DeleteTree? && me.owned[a.inode].name == name && !me.owned[a.inode].unlinked)
            || (a.Advance? && me.pc == NewCleared(name) && name in st.strays)
  {
    if a.Advance? {
      ProceedDeletesStrays(st, p, me, a.inode, name);
    } else {
      assert a.DeleteTree?;
      assert OwnedFits(st, p, a.inode, me.owned[a.inode]);
    }
  }

  /** The constructor of the lease takes it back, having failed; a tree left behind becomes a stray. */
  predicate TakesBack(st: Store, me: Process, a: Action, name: Name)
  {
    && a.Advance? && me.pc.NewFailed? && me.pc.name == name
    && Leased(st, name, me.pc.inode) && me.pc.inode !in st.locks && OnlyStray(st, name)
  }

  lemma LeasesShrinkByAdvance(st: Store, p: Pid, me: Process, spare: Inode, name: Name)
    requires Mine(st, p, me) && name in st.leases && name !in Proceed(st, p, me, spare).store.leases
    ensures || TakesBack(st, me, Advance(spare), name)
            || (name !in st.trees && HoldsLease(st, p, name, st.leases[name]) && me.pc.RetireLocked?)
  {
    assert me.pc.NewFailed? || me.pc.RetireLocked?;
    assert PcFits(st, p, me.pc);
  }

  lemma LeasesShrinkUnderLock(st: Store, p: Pid, me: Process, a: Action, name: Name)
    requires Mine(st, p, me) && Possible(st, me, a)
    requires name in st.leases && name !in Perform(st, p, me, a).store.leases
    ensures !me.pc.Out?
    ensures || TakesBack(st, me, a, name)
            || (&& name !in st.trees && HoldsLease(st, p, name, st.leases[name])
                && (a.UnlinkLease? || me.pc.RetireLocked?))
  {
    if a.Advance? {
      LeasesShrinkByAdvance(st, p, me, a.inode, name);
    } else {
      assert a.UnlinkLease?;
      assert OwnedFits(st, p, a.inode, me.owned[a.inode]);
    }
  }

  /**
   Only the owner deletes a tree, but for a failed constructor that clears the stray of its name,
   which an earlier constructor may have left. A lease
   file disappears only under the coordination lock: with no tree left and by the holder of its
   lock, who owns it or retires an orphan; or by its failed constructor, when nobody holds it.
   */
  lemma OnlyOwnersDelete(run: seq<(Pid, Action)>, p: Pid, a: Action, name: Name)
    requires ValidRun(EMPTY, run) && Enabled(Final(EMPTY, run), p, a)
    ensures var s := Final(EMPTY, run);
            var t := Apply(s, p, a);
            && (name in s.store.trees && name !in t.store.trees ==>
                  || (a.DeleteTree? && Owns(s, p, name, a.inode))
                  || (a.Advance? && s.procs[p].pc == NewCleared(name) && name in s.store.strays))
            && (name in s.store.leases && name !in t.store.leases ==>
                  && s.holder == Some(p)
                  && (|| TakesBack(s.store, s.procs[p], a, name)
                      || (&& name !in s.store.trees && HoldsLease(s.store, p, name, s.store.leases[name])
                          && (a.UnlinkLease? || s.procs[p].pc.RetireLocked?))))
  {
    var s := Final(EMPTY, run);
    var t := Apply(s, p, a);
    if !Passive(a) && !a.Crash? {
      RunIsMine(run, p, a);
      if name in s.store.trees && name !in t.store.trees {
        TreesShrinkByOwner(s.store, p, s.procs[p], a, name);
      }
      if name in s.store.leases && name !in t.store.leases {
        LeasesShrinkUnderLock(s.store, p, s.procs[p], a, name);
      }
    }
  }

  /** No other process, crashing or not, ever moves a live run's extraction directory away. */
  lemma LiveRunIsNeverDetached(run: seq<(Pid, Action)>, p: Pid, q: Pid, a: Action)
    requires ValidRun(EMPTY, run) && Enabled(Final(EMPTY, run), q, a) && p != q
    requires p in Final(EMPTY, run).procs && Final(EMPTY, run).procs[p].run.Attached?
    ensures var s := Final(EMPTY, run);
            var t := Apply(s, q, a);
            var mine := s.procs[p].run;
            && mine.dir in s.store.active && s.store.active[mine.dir].lease == Some(mine.inode)
            && mine.dir in t.store.active && t.store.active[mine.dir] == s.store.active[mine.dir]
            && mine.inode in t.store.locks && t.store.locks[mine.inode] == p
  {
    RunKeepsInv(EMPTY, run);
    var s := Final(EMPTY, run);
    StepRespects(s, q, a, p);
    assert RunFits(s.store, p, s.procs[p].run);
  }

  /** Every locked lease file is in the hands of a live process that accounts for it. */
  lemma LocksBelongToLiveProcesses(run: seq<(Pid, Action)>, inode: Inode)
    requires ValidRun(EMPTY, run) && inode in Final(EMPTY, run).store.locks
    ensures var s := Final(EMPTY, run);
            && s.store.locks[inode] in s.procs
            && inode in s.store.files
            && LockUsed(s.procs[s.store.locks[inode]], inode, s.store.files[inode])
  {
    RunKeepsInv(EMPTY, run);
  }

  lemma FourSteps(s: Cache, s1: Cache, s2: Cache, s3: Cache, p: Pid, a: Action, spare: Inode)
    requires Enabled(s, p, a) && s1 == Apply(s, p, a)
    requires Enabled(s1, p, Advance(spare)) && s2 == Apply(s1, p, Advance(spare))
    requires Enabled(s2, p, Advance(spare)) && s3 == Apply(s2, p, Advance(spare))
    requires Enabled(s3, p, Advance(spare))
    ensures var steps := [(p, a), (p, Advance(spare)), (p, Advance(spare)), (p, Advance(spare))];
            ValidRun(s, steps) && Final(s, steps) == Apply(s3, p, Advance(spare))
  {
    var next := (p, Advance(spare));
    var steps := [(p, a), next, next, next];
    var s4 := Apply(s3, p, Advance(spare));
    assert steps[1..] == [next, next, next] && [next, next, next][1..] == [next, next] && [next, next][1..] == [next];
    assert ValidRun(s3, [next]) && Final(s3, [next]) == s4;
    assert ValidRun(s2, [next, next]) && Final(s2, [next, next]) == s4;
    assert ValidRun(s1, [next, next, next]) && Final(s1, [next, next, next]) == s4;
  }

  lemma TreeIsClaimed(s: Cache, p: Pid, name: Name, spare: Inode)
    requires p in s.procs && s.procs[p].pc.In? && spare !in s.store.files
    requires name in s.store.trees && name in s.store.leases && s.store.leases[name] !in s.store.locks
    ensures var steps := [(p, SeeTree(name)), (p, Advance(spare)), (p, Advance(spare)), (p, Advance(spare))];
            ValidRun(s, steps) && Owns(Final(s, steps), p, name, s.store.leases[name])
  {
    var inode := s.store.leases[name];
    var s1 := Apply(s, p, SeeTree(name));
    var s2 := Apply(s1, p, Advance(spare));
    assert s2.procs[p].pc == ClaimOpened(name, inode, s.store.trees[name]);
    var s3 := Apply(s2, p, Advance(spare));
    assert s3.procs[p].pc == ClaimLocked(name, inode, s.store.trees[name]);
    FourSteps(s, s1, s2, s3, p, SeeTree(name), spare);
  }

  lemma OrphanIsRetired(s: Cache, p: Pid, name: Name, spare: Inode)
    requires p in s.procs && s.procs[p].pc.In? && spare !in s.store.files
    requires name !in s.store.trees && name in s.store.leases && s.store.leases[name] !in s.store.locks
    ensures var steps := [(p, SeeOrphan(name)), (p, Advance(spare)), (p, Advance(spare)), (p, Advance(spare))];
            ValidRun(s, steps) && name !in Final(s, steps).store.leases
  {
    var inode := s.store.leases[name];
    var s1 := Apply(s, p, SeeOrphan(name));
    var s2 := Apply(s1, p, Advance(spare));
    assert s2.procs[p].pc == RetireOpened(name, inode);
    var s3 := Apply(s2, p, Advance(spare));
    assert s3.procs[p].pc == RetireLocked(name, inode);
    FourSteps(s, s1, s2, s3, p, SeeOrphan(name), spare);
  }

  /**
   Nothing abandoned is out of reach: a process in the coordination lock can claim any tree
   whose lease nobody holds, in four steps of its own; without a lease file a tree is a stray.
   */
  lemma AbandonedTreeIsClaimable(run: seq<(Pid, Action)>, p: Pid, name: Name, spare: Inode)
    requires ValidRun(EMPTY, run)
    requires var s := Final(EMPTY, run);
             && p in s.procs && s.procs[p].pc.In? && spare !in s.store.files
             && name in s.store.trees && name in s.store.leases && s.store.leases[name] !in s.store.locks
    ensures var s := Final(EMPTY, run);
            var steps := [(p, SeeTree(name)), (p, Advance(spare)), (p, Advance(spare)), (p, Advance(spare))];
            ValidRun(s, steps) && Owns(Final(s, steps), p, name, s.store.leases[name])
  {
    TreeIsClaimed(Final(EMPTY, run), p, name, spare);
  }

  /** A lease file without a tree that nobody holds can be retired in four steps. */
  lemma OrphanLeaseIsRetirable(run: seq<(Pid, Action)>, p: Pid, name: Name, spare: Inode)
    requires ValidRun(EMPTY, run)
    requires var s := Final(EMPTY, run);
             && p in s.procs && s.procs[p].pc.In? && spare !in s.store.files
             && name !in s.store.trees && name in s.store.leases && s.store.leases[name] !in s.store.locks
    ensures var s := Final(EMPTY, run);
            var steps := [(p, SeeOrphan(name)), (p, Advance(spare)), (p, Advance(spare)), (p, Advance(spare))];
            ValidRun(s, steps) && name !in Final(s, steps).store.leases
  {
    OrphanIsRetired(Final(EMPTY, run), p, name, spare);
  }

  lemma CrashUnlocks(s: Cache, p: Pid, name: Name, inode: Inode)
    requires Owns(s, p, name, inode) && name in s.store.trees
    requires OwnedFits(s.store, p, inode, s.procs[p].owned[inode])
    ensures var t := Apply(s, p, Crash);
            name in t.store.trees && name in t.store.leases && t.store.leases[name] !in t.store.locks
  {
  }

  /** A crash abandons what the process owned without damaging it: the trees become claimable. */
  lemma CrashLeavesTreesClaimable(run: seq<(Pid, Action)>, p: Pid, name: Name, inode: Inode)
    requires ValidRun(EMPTY, run)
    requires Owns(Final(EMPTY, run), p, name, inode) && name in Final(EMPTY, run).store.trees
    ensures var s := Final(EMPTY, run);
            var t := Apply(s, p, Crash);
            name in t.store.trees && name in t.store.leases && t.store.leases[name] !in t.store.locks
  {
    RunKeepsInv(EMPTY, run);
    var s := Final(EMPTY, run);
    assert ProcFits(s.store, p, s.procs[p]);
    CrashUnlocks(s, p, name, inode);
  }
}
