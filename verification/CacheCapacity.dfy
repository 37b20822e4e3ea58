/**
 Capacity reservation in the Zig cache root of scripts/provision_zig.py.

 An admission leaves room for the trash pair (tree and lease file) that each active run will
 need for its cleanup. The unit of the model is one section under the coordination lock, whole
 or cut short: a process that is killed or fails inside a section leaves part of its trash
 behind. The unlocked deletion of a tree is a step of its own and only lowers the counts. A
 crash anywhere else leaves the counts as they are.
 */
module CacheCapacity {
  const ACTIVE_CAPACITY: nat := 128
  const ROOT_CAPACITY: nat := 32 + 2 * ACTIVE_CAPACITY

  datatype Counts = Counts(
    fixed: nat,          // coordination files, directories and cursors
    pairs: nat,          // trash trees with their lease files
    halves: nat,         // lease files whose tree is gone or was never made
    active: nat,         // extraction directories, live or stale
    loosePairs: nat,     // of the pairs, those of refused or interrupted sections
    looseHalves: nat,    // of the halves, likewise
    added: nat)          // of the fixed entries, those created during the run, and trees without a lease

  /** What a section cut short leaves of its trash. */
  datatype Leftover = LeaseOnly | TreeOnly | WholePair(moved: nat)

  datatype Step =
    | Admit(moved: nat)        // an admission attempt that found this many stale directories
    | Cleanup                  // a run detaches its own directory
    | Interrupt(left: Leftover) // an admission or a cleanup is cut short after its capacity check
    | DeleteTree(loose: bool)
    | RetireLease(loose: bool)
    | CreateFixed

  function Root(c: Counts): (n: nat)
  {
    c.fixed + 2 * c.pairs + c.halves
  }

  /** Entries now, plus the trash pair every active directory will need. */
  function Potential(c: Counts): (n: nat)
  {
    Root(c) + 2 * c.active
  }

  /** Root entries that no admission has accounted for. */
  function Slack(c: Counts): (n: nat)
  {
    2 * c.loosePairs + c.looseHalves + c.added
  }

  predicate Consistent(c: Counts)
  {
    c.loosePairs <= c.pairs && c.looseHalves <= c.halves && c.added <= c.fixed
  }

  predicate HasTrashRoom(c: Counts)
  {
    Root(c) + 2 <= ROOT_CAPACITY
  }

  /** The two checks an admission makes after moving stale directories aside. */
  predicate Admits(c: Counts, moved: nat)
    requires moved <= c.active
  {
    var prospective := c.active - moved + 1;
    prospective <= ACTIVE_CAPACITY && Root(c) + 2 + 2 * prospective <= ROOT_CAPACITY
  }

  predicate Enabled(c: Counts, step: Step)
  {
    match step
    case Admit(moved) => moved <= c.active
    case Cleanup => c.active > 0
    case Interrupt(left) => HasTrashRoom(c) && (left.WholePair? ==> left.moved <= c.active)
    case DeleteTree(loose) => if loose then c.loosePairs > 0 else c.pairs > c.loosePairs
    case RetireLease(loose) => if loose then c.looseHalves > 0 else c.halves > c.looseHalves
    case CreateFixed => Root(c) < ROOT_CAPACITY
  }

  /** A loose pair, with the directories that were moved into it. */
  function LeavePair(c: Counts, moved: nat): (r: Counts)
    requires moved <= c.active
  {
    c.(pairs := c.pairs + 1, loosePairs := c.loosePairs + 1, active := c.active - moved)
  }

  /** A refused admission keeps its trash pair, and the directories it moved, until it removes them. */
  function Apply(c: Counts, step: Step): (r: Counts)
    requires Enabled(c, step) && Consistent(c)
  {
    match step
    case Admit(moved) =>
      if !HasTrashRoom(c) then c
      else if Admits(c, moved) then c.(pairs := c.pairs + 1, active := c.active - moved + 1)
      else LeavePair(c, moved)
    case Cleanup => if HasTrashRoom(c) then c.(pairs := c.pairs + 1, active := c.active - 1) else c
    case Interrupt(left) =>
      (match left
       case LeaseOnly => c.(halves := c.halves + 1, looseHalves := c.looseHalves + 1)
       case TreeOnly => c.(fixed := c.fixed + 1, added := c.added + 1)
       case WholePair(moved) => LeavePair(c, moved))
    case DeleteTree(loose) =>
      var d := c.(pairs := c.pairs - 1, halves := c.halves + 1);
      if loose then d.(loosePairs := c.loosePairs - 1, looseHalves := c.looseHalves + 1) else d
    case RetireLease(loose) =>
      var d := c.(halves := c.halves - 1);
      if loose then d.(looseHalves := c.looseHalves - 1) else d
    case CreateFixed => c.(fixed := c.fixed + 1, added := c.added + 1)
  }

  /** How each step moves the potential. */
  lemma StepMovesPotential(c: Counts, step: Step)
    requires Enabled(c, step) && Consistent(c)
    ensures var d := Apply(c, step);
            && Consistent(d)
            && match step
               case Admit(moved) =>
                 if !HasTrashRoom(c) then d == c
                 else if Admits(c, moved) then Potential(d) <= ROOT_CAPACITY && Slack(d) == Slack(c)
                 else Potential(d) + 2 * moved == Potential(c) + 2 && Slack(d) == Slack(c) + 2
               case Cleanup => Potential(d) == Potential(c) && Slack(d) == Slack(c)
               case Interrupt(left) =>
                 if left.WholePair? then Potential(d) + 2 * left.moved == Potential(c) + 2 && Slack(d) == Slack(c) + 2
                 else Potential(d) == Potential(c) + 1 && Slack(d) == Slack(c) + 1
               case DeleteTree(loose) => Potential(d) == Potential(c) - 1 && Slack(d) == Slack(c) - (if loose then 1 else 0)
               case RetireLease(loose) => Potential(d) == Potential(c) - 1 && Slack(d) == Slack(c) - (if loose then 1 else 0)
               case CreateFixed => Potential(d) == Potential(c) + 1 && Slack(d) == Slack(c) + 1
  {
  }

  predicate ValidRun(c: Counts, run: seq<Step>)
    decreases |run|
  {
    Consistent(c) && (run == [] || (Enabled(c, run[0]) && ValidRun(Apply(c, run[0]), run[1..])))
  }

  function Final(c: Counts, run: seq<Step>): (r: Counts)
    requires ValidRun(c, run)
    decreases |run|
  {
    if run == [] then c else Final(Apply(c, run[0]), run[1..])
  }

  lemma {:induction false} PotentialIsBounded(c: Counts, run: seq<Step>)
    requires ValidRun(c, run) && Potential(c) <= ROOT_CAPACITY + Slack(c)
    ensures Potential(Final(c, run)) <= ROOT_CAPACITY + Slack(Final(c, run))
    decreases |run|
  {
    if run != [] {
      StepMovesPotential(c, run[0]);
      PotentialIsBounded(Apply(c, run[0]), run[1..]);
    }
  }

  /**
   The reservation holds while every active run outweighs the unaccounted entries: the
   owner's cleanup then finds room in the root.
   */
  lemma CleanupFindsRoom(c: Counts, run: seq<Step>)
    requires ValidRun(c, run) && Potential(c) <= ROOT_CAPACITY + Slack(c)
    requires 2 * Final(c, run).active >= 2 + Slack(Final(c, run))
    ensures HasTrashRoom(Final(c, run))
  {
    PotentialIsBounded(c, run);
  }

  /** Along the run no admission is refused, no section is cut short and no fixed entry is created. */
  predicate Orderly(c: Counts, run: seq<Step>)
    requires ValidRun(c, run)
    decreases |run|
  {
    run == [] ||
    (&& !run[0].CreateFixed? && !run[0].Interrupt?
     && (run[0].Admit? && HasTrashRoom(c) ==> Admits(c, run[0].moved))
     && Orderly(Apply(c, run[0]), run[1..]))
  }

  lemma {:induction false} OrderlyRunsHaveNoSlack(c: Counts, run: seq<Step>)
    requires ValidRun(c, run) && Orderly(c, run) && Slack(c) == 0
    ensures Slack(Final(c, run)) == 0
    decreases |run|
  {
    if run != [] {
      StepMovesPotential(c, run[0]);
      OrderlyRunsHaveNoSlack(Apply(c, run[0]), run[1..]);
    }
  }

  /** When the root grows only by successful admissions and cleanups, no cleanup ever fails its check. */
  lemma OrderlyCleanupNeverFails(c: Counts, run: seq<Step>)
    requires ValidRun(c, run) && Orderly(c, run) && Slack(c) == 0 && Potential(c) <= ROOT_CAPACITY
    requires Final(c, run).active > 0
    ensures HasTrashRoom(Final(c, run))
  {
    OrderlyRunsHaveNoSlack(c, run);
    CleanupFindsRoom(c, run);
  }

  // ----- the condition is tight -----

  lemma {:induction false} Then(c: Counts, run: seq<Step>, d: Counts, step: Step) returns (more: seq<Step>, e: Counts)
    requires ValidRun(c, run) && Final(c, run) == d && Enabled(d, step) && Consistent(d)
    ensures more == run + [step] && e == Apply(d, step) && ValidRun(c, more) && Final(c, more) == e
    decreases |run|
  {
    more, e := run + [step], Apply(d, step);
    if run == [] {
      StepMovesPotential(c, step);
      assert more[1..] == [];
    } else {
      var rest, f := Then(Apply(c, run[0]), run[1..], d, step);
      assert more[1..] == rest;
    }
  }

  function Start(fixed: nat): (c: Counts)
  {
    Counts(fixed, 0, 0, 0, 0, 0, 0)
  }

  /** `n` runs admitted one after the other, each having removed its admission's trash. */
  lemma {:induction false} RunsAdmitted(fixed: nat, n: nat) returns (r: seq<Step>)
    requires n <= ACTIVE_CAPACITY && (n > 0 ==> fixed + 2 + 2 * n <= ROOT_CAPACITY)
    ensures ValidRun(Start(fixed), r) && Final(Start(fixed), r) == Start(fixed).(active := n)
  {
    var c := Start(fixed);
    if n == 0 {
      r := [];
    } else {
      r := RunsAdmitted(fixed, n - 1);
      var d;
      r, d := Then(c, r, c.(active := n - 1), Admit(0));
      r, d := Then(c, r, d, DeleteTree(false));
      r, d := Then(c, r, d, RetireLease(false));
    }
  }

  /** A full house, and then `k` admissions refused in a row. */
  lemma {:induction false} RunsRefused(n: nat, k: nat) returns (r: seq<Step>)
    requires 0 < n <= ACTIVE_CAPACITY && k <= n
    ensures ValidRun(Start(ROOT_CAPACITY - 2 - 2 * n), r)
    ensures Final(Start(ROOT_CAPACITY - 2 - 2 * n), r)
         == Start(ROOT_CAPACITY - 2 - 2 * n).(active := n, pairs := 1 + k, loosePairs := k)
    decreases k
  {
    var c := Start(ROOT_CAPACITY - 2 - 2 * n);
    var d;
    if k == 0 {
      r := RunsAdmitted(c.fixed, n - 1);
      r, d := Then(c, r, c.(active := n - 1), Admit(0));
    } else {
      r := RunsRefused(n, k - 1);
      r, d := Then(c, r, c.(active := n, pairs := k, loosePairs := k - 1), Admit(0));
    }
  }

  /**
   The gap, for every number of active runs: as many refused admissions in flight fill the
   root with their own trash pairs, and a run's cleanup then fails its capacity check although
   every admission had reserved for it.
   */
  lemma RefusalsCanStarveCleanup(n: nat) returns (r: seq<Step>)
    requires 0 < n <= ACTIVE_CAPACITY
    ensures var c := Start(ROOT_CAPACITY - 2 - 2 * n);
            && Potential(c) <= ROOT_CAPACITY && Slack(c) == 0
            && ValidRun(c, r)
            && var d := Final(c, r);
            && d.active == n && d.loosePairs == n && 2 * d.active == Slack(d)
            && !HasTrashRoom(d)
  {
    r := RunsRefused(n, n);
  }

  // ----- exactly when a cleanup can fail -----

  /** What holds of every count in a run that starts with `fixed` entries and nothing else. */
  predicate Accounted(fixed: nat, c: Counts)
  {
    && Consistent(c) && c.fixed == fixed + c.added
    && Root(c) <= ROOT_CAPACITY && c.active <= ACTIVE_CAPACITY
    && (c.active > 0 ==> Admissible(fixed, c.active))
    && (!Admissible(fixed, 1) ==> c.active == 0 && c.pairs == c.loosePairs && c.halves == c.looseHalves)
  }

  /** So many runs, and the trash of the last admission, fit beside the fixed entries. */
  predicate Admissible(fixed: nat, n: nat)
  {
    fixed + 2 + 2 * n <= ROOT_CAPACITY
  }

  lemma {:induction false} CountsAreAccounted(fixed: nat, c: Counts, run: seq<Step>)
    requires ValidRun(c, run) && Accounted(fixed, c)
    ensures Accounted(fixed, Final(c, run))
    decreases |run|
  {
    if run != [] {
      StepIsAccounted(fixed, c, run[0]);
      CountsAreAccounted(fixed, Apply(c, run[0]), run[1..]);
    }
  }

  lemma StepIsAccounted(fixed: nat, c: Counts, step: Step)
    requires Enabled(c, step) && Accounted(fixed, c)
    ensures Accounted(fixed, Apply(c, step))
  {
  }

  /** `k` sections in a row are killed after creating their lease file. */
  lemma {:induction false} SectionsKilled(c: Counts, r0: seq<Step>, d: Counts, k: nat) returns (r: seq<Step>)
    requires ValidRun(c, r0) && Final(c, r0) == d && Consistent(d) && (k > 0 ==> Root(d) + k < ROOT_CAPACITY)
    ensures ValidRun(c, r) && Final(c, r) == d.(halves := d.halves + k, looseHalves := d.looseHalves + k)
    decreases k
  {
    if k == 0 {
      r := r0;
    } else {
      r := SectionsKilled(c, r0, d, k - 1);
      var e;
      r, e := Then(c, r, d.(halves := d.halves + k - 1, looseHalves := d.looseHalves + k - 1), Interrupt(LeaseOnly));
    }
  }

  /** A run is admitted and cleans up, and all its trash is removed but one lease file. */
  lemma LeaseLeft(c: Counts, r0: seq<Step>, d: Counts) returns (r: seq<Step>)
    requires ValidRun(c, r0) && Final(c, r0) == d && Consistent(d)
    requires d.active < ACTIVE_CAPACITY && Root(d) + 4 + 2 * d.active <= ROOT_CAPACITY
    ensures ValidRun(c, r) && Final(c, r) == d.(halves := d.halves + 1)
  {
    var e;
    r, e := Then(c, r0, d, Admit(0));
    r, e := Then(c, r, e, Cleanup);
    r, e := Then(c, r, e, DeleteTree(false));
    r, e := Then(c, r, e, RetireLease(false));
    r, e := Then(c, r, e, DeleteTree(false));
  }

  lemma {:induction false} LeasesLeft(c: Counts, r0: seq<Step>, d: Counts, t: nat) returns (r: seq<Step>)
    requires ValidRun(c, r0) && Final(c, r0) == d && Consistent(d)
    requires t > 0 ==> d.active < ACTIVE_CAPACITY && Root(d) + t + 3 + 2 * d.active <= ROOT_CAPACITY
    ensures ValidRun(c, r) && Final(c, r) == d.(halves := d.halves + t)
    decreases t
  {
    if t == 0 {
      r := r0;
    } else {
      r := LeasesLeft(c, r0, d, t - 1);
      r := LeaseLeft(c, r, d.(halves := d.halves + t - 1));
    }
  }

  /** Some run from a root with `fixed` entries ends with `n` active directories, `k` loose entries and no room. */
  ghost predicate Starves(fixed: nat, n: nat, k: nat)
  {
    exists r: seq<Step> :: StarvesBy(fixed, r, n, k)
  }

  predicate StarvesBy(fixed: nat, r: seq<Step>, n: nat, k: nat)
  {
    && ValidRun(Start(fixed), r)
    && var d := Final(Start(fixed), r);
       d.active == n && Slack(d) == k && !HasTrashRoom(d)
  }

  /** Loose entries fill the root to its last place but one. */
  lemma StarvedByLeftovers(fixed: nat, r0: seq<Step>, d: Counts, k: nat)
    requires ValidRun(Start(fixed), r0) && Final(Start(fixed), r0) == d && Consistent(d)
    requires Slack(d) == 0 && Root(d) + k == ROOT_CAPACITY - 1
    ensures Starves(fixed, d.active, k)
  {
    var r := SectionsKilled(Start(fixed), r0, d, k);
    assert StarvesBy(fixed, r, d.active, k);
  }

  /** Loose entries and the fixed ones fill it completely. */
  lemma StarvedCompletely(fixed: nat, n: nat, k: nat)
    requires n <= ACTIVE_CAPACITY && (n > 0 ==> Admissible(fixed, n)) && 0 < k && fixed + k == ROOT_CAPACITY
    ensures Starves(fixed, n, k)
  {
    var c := Start(fixed);
    var r := RunsAdmitted(fixed, n);
    r := SectionsKilled(c, r, c.(active := n), k - 1);
    var d;
    r, d := Then(c, r, c.(active := n, halves := k - 1, looseHalves := k - 1), CreateFixed);
    assert StarvesBy(fixed, r, n, k);
  }

  /** So many runs are active, and the trash of admissions takes so many places. */
  lemma ActiveWithTrash(fixed: nat, n: nat, t: nat) returns (r: seq<Step>, d: Counts)
    requires 0 < n <= ACTIVE_CAPACITY && Admissible(fixed, n) && (t > 0 ==> fixed + t + 2 * n <= ROOT_CAPACITY)
    ensures ValidRun(Start(fixed), r) && Final(Start(fixed), r) == d && Consistent(d)
    ensures d.active == n && Slack(d) == 0 && Root(d) == fixed + t
  {
    var c := Start(fixed);
    if t == 0 {
      r := RunsAdmitted(fixed, n);
      d := c.(active := n);
    } else {
      r := RunsAdmitted(fixed, n - 1);
      r := LeasesLeft(c, r, c.(active := n - 1), if t == 1 then 0 else t - 2);
      r, d := Then(c, r, c.(active := n - 1, halves := if t == 1 then 0 else t - 2), Admit(0));
      if t == 1 {
        r, d := Then(c, r, d, DeleteTree(false));
      }
    }
  }

  lemma StarvedWhileActive(fixed: nat, n: nat, k: nat)
    requires 0 < n <= ACTIVE_CAPACITY && Admissible(fixed, n) && fixed + k < ROOT_CAPACITY && 2 * n < k + 2
    ensures Starves(fixed, n, k)
  {
    var r, d := ActiveWithTrash(fixed, n, ROOT_CAPACITY - 1 - fixed - k);
    StarvedByLeftovers(fixed, r, d, k);
  }

  /** With none active. */
  lemma StarvedAtRest(fixed: nat, k: nat)
    requires fixed + k < ROOT_CAPACITY && (Admissible(fixed, 1) || fixed + k == ROOT_CAPACITY - 1)
    ensures Starves(fixed, 0, k)
  {
    var c := Start(fixed);
    var r, d := [], c;
    if k >= 2 {
      r := LeasesLeft(c, r, d, ROOT_CAPACITY - 1 - fixed - k);
      d := d.(halves := ROOT_CAPACITY - 1 - fixed - k);
    } else if Admissible(fixed, 1) {
      r := LeasesLeft(c, r, d, ROOT_CAPACITY - 4 - fixed);
      r, d := Then(c, r, d.(halves := ROOT_CAPACITY - 4 - fixed), Admit(0));
      r, d := Then(c, r, d, Cleanup);
      r, d := Then(c, r, d, DeleteTree(false));
      if k == 1 {
        r, d := Then(c, r, d, RetireLease(false));
      }
    }
    StarvedByLeftovers(fixed, r, d, k);
  }

  /**
   Exactly when a cleanup can fail its check, from a root with any number of fixed entries: the
   condition of `CleanupFindsRoom` is violated, the loose entries fit beside the fixed ones, the
   active runs could be admitted, and a root too full for any admission is full without trash.
   */
  lemma StarvationIsExact(fixed: nat, n: nat, k: nat)
    requires fixed <= ROOT_CAPACITY
    ensures Starves(fixed, n, k) <==>
            && 2 * n < k + 2
            && n <= ACTIVE_CAPACITY && fixed + k <= ROOT_CAPACITY
            && (n > 0 ==> Admissible(fixed, n))
            && (Admissible(fixed, 1) || fixed + k >= ROOT_CAPACITY - 1)
  {
    if Starves(fixed, n, k) {
      var r :| StarvesBy(fixed, r, n, k);
      CountsAreAccounted(fixed, Start(fixed), r);
      PotentialIsBounded(Start(fixed), r);
    }
    if 2 * n < k + 2 && n <= ACTIVE_CAPACITY && fixed + k <= ROOT_CAPACITY && (n > 0 ==> Admissible(fixed, n))
       && (Admissible(fixed, 1) || fixed + k >= ROOT_CAPACITY - 1) {
      if k == 0 && fixed == ROOT_CAPACITY {
        assert StarvesBy(fixed, [], n, k);
      } else if fixed + k == ROOT_CAPACITY {
        StarvedCompletely(fixed, n, k);
      } else if n > 0 {
        StarvedWhileActive(fixed, n, k);
      } else {
        StarvedAtRest(fixed, k);
      }
    }
  }

  /** In a cache whose fixed entries leave room for every active run, only the first condition is left. */
  lemma StarvationWithinReserve(fixed: nat, n: nat, k: nat)
    requires Admissible(fixed, ACTIVE_CAPACITY)
    ensures Starves(fixed, n, k) <==> 2 * n < k + 2 && n <= ACTIVE_CAPACITY && fixed + k <= ROOT_CAPACITY
  {
    StarvationIsExact(fixed, n, k);
  }
}
