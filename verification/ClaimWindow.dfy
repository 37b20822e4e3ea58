/**
 The loop that claims abandoned trash, name by name over a window, with the steps of
 `TrashLeases`. Other processes delete trees they own and drop locks between two names; a claimer
 that meets a stray gives every claim back.
 */
module ClaimWindow {
  import opened Shared
  import opened TrashLeases

  /** The store with these lease files locked by process `p` as well. */
  function Holding(st: Store, p: Pid, held: set<Inode>): Store
  {
    st.(locks := map i | i in st.locks.Keys + held :: if i in held then p else st.locks[i])
  }

  /** A tree whose lease nobody holds. */
  predicate Abandoned(st: Store, name: Name)
  {
    name in st.trees && name in st.leases && st.leases[name] !in st.locks
  }

  /** What others may do to the store without the coordination lock. */
  ghost predicate Deleting(st: Store, later: Store)
  {
    && later.leases == st.leases && later.strays == st.strays && later.files == st.files
    && (forall name :: name in later.trees ==> name in st.trees && later.trees[name] == st.trees[name])
    && (forall i :: i in later.locks ==> i in st.locks && later.locks[i] == st.locks[i])
  }

  /** While process `p` holds the coordination lock, that is all any other process does. */
  lemma OthersOnlyDelete(run: seq<(Pid, Action)>, p: Pid, q: Pid, a: Action)
    requires ValidRun(EMPTY, run) && Final(EMPTY, run).holder == Some(p) && q != p && Enabled(Final(EMPTY, run), q, a)
    ensures Deleting(Final(EMPTY, run).store, Apply(Final(EMPTY, run), q, a).store)
  {
    RunKeepsInv(EMPTY, run);
    var s := Final(EMPTY, run);
    assert q in s.procs ==> s.procs[q].pc.Out?;
  }

  /** The store as each name of the window is inspected, without this process's own claims. */
  ghost predicate Observations(seen: seq<Store>, names: seq<Name>)
  {
    && |seen| == |names|
    && (forall i :: 0 <= i < |seen| ==> StoreFits(seen[i]))
    && (forall i :: 0 < i < |seen| ==> Deleting(seen[i - 1], seen[i]))
    && (forall i, j :: 0 <= i < j < |names| ==> names[i] != names[j])
  }

  /** The names claimed among the first `k`: those found abandoned, up to the batch size. */
  function Claims(seen: seq<Store>, names: seq<Name>, batch: nat, k: nat): (r: seq<Name>)
    requires k <= |names| == |seen|
    ensures |r| <= k && forall n :: n in r ==> n in names[..k]
  {
    if k == 0 then []
    else
      var before := Claims(seen, names, batch, k - 1);
      assert names[..k] == names[..k - 1] + [names[k - 1]];
      if |before| < batch && Abandoned(seen[k - 1], names[k - 1]) then before + [names[k - 1]] else before
  }

  /** The claimer looks at the tree of a stray while it still wants more. */
  predicate MeetsStray(seen: seq<Store>, names: seq<Name>, batch: nat, k: nat)
    requires |names| == |seen|
  {
    k < |names| && names[k] in seen[k].strays && |Claims(seen, names, batch, k)| < batch
  }

  lemma {:induction false} LeasesStay(seen: seq<Store>, names: seq<Name>, k: nat)
    requires Observations(seen, names) && k < |seen|
    ensures seen[k].leases == seen[0].leases && seen[k].strays == seen[0].strays && seen[k].files == seen[0].files
  {
    if k > 0 {
      LeasesStay(seen, names, k - 1);
    }
  }

  /** The lease files of the names. */
  function LeasesOf(st: Store, names: seq<Name>): set<Inode>
  {
    set n | n in names && n in st.leases :: st.leases[n]
  }

  /** The steps of one claim end in a claim exactly if the tree is abandoned, and in a fault exactly if it is a stray. */
  method ClaimOne(st: Store, p: Pid, held: set<Inode>, name: Name) returns (claimed: bool, fault: bool)
    requires StoreFits(st) && name in st.trees && (name in st.leases ==> st.leases[name] !in held)
    ensures claimed <==> Abandoned(st, name)
    ensures fault <==> name in st.strays
  {
    var me := Process(ClaimSeen(name, st.trees[name]), map[], NoRun);
    var e := Proceed(Holding(st, p, held), p, me, 0);
    if e.me.pc.In? {
      return false, e.fault;
    }
    e := Proceed(e.store, p, e.me, 0);
    if e.me.pc.In? {
      return false, e.fault;
    }
    e := Proceed(e.store, p, e.me, 0);
    return st.leases[name] in e.me.owned, e.fault;
  }

  lemma OneMoreLease(st: Store, names: seq<Name>, name: Name)
    requires name in st.leases
    ensures LeasesOf(st, names + [name]) == LeasesOf(st, names) + {st.leases[name]}
  {
    var more := names + [name];
    assert more[|names|] == name;
    forall n | n in more ensures n in names || n == name {}
    forall n | n in names ensures n in more {}
  }

  /** Every claim is given back, in order. */
  method GiveBack(st: Store, names: seq<Name>, held: set<Inode>) returns (rest: set<Inode>)
    requires held == LeasesOf(st, names)
    ensures rest == {}
  {
    rest := held;
    for i := 0 to |names|
      invariant rest == held - LeasesOf(st, names[..i])
    {
      assert names[..i + 1] == names[..i] + [names[i]];
      if names[i] in st.leases {
        OneMoreLease(st, names[..i], names[i]);
        rest := rest - {st.leases[names[i]]};
      }
    }
    assert names[..|names|] == names;
  }

  /** The claims so far and the locks they took. */
  ghost predicate Progress(seen: seq<Store>, names: seq<Name>, batch: nat, i: nat, list: seq<Name>, held: set<Inode>)
  {
    && i <= |names| == |seen| && list == Claims(seen, names, batch, i)
    && held == if names == [] then {} else LeasesOf(seen[0], list)
  }

  lemma OneMoreClaim(seen: seq<Store>, names: seq<Name>, batch: nat, i: nat, list: seq<Name>, held: set<Inode>)
    requires Observations(seen, names) && i < |names| && Progress(seen, names, batch, i, list, held)
    ensures if |list| < batch && Abandoned(seen[i], names[i])
            then Progress(seen, names, batch, i + 1, list + [names[i]], held + {seen[i].leases[names[i]]})
            else Progress(seen, names, batch, i + 1, list, held)
  {
    LeasesStay(seen, names, i);
    if names[i] in seen[i].leases {
      OneMoreLease(seen[0], list, names[i]);
    }
  }

  /**
   The whole loop. It fails exactly when it meets a stray, and then holds nothing; otherwise it
   has claimed the first abandoned trees of the window, and holds exactly their leases.
   */
  method ClaimAbandonedTrash(seen: seq<Store>, p: Pid, names: seq<Name>, batch: nat)
    returns (claimed: Option<seq<Name>>, held: set<Inode>)
    requires Observations(seen, names)
    ensures claimed.None? <==> exists k: nat :: MeetsStray(seen, names, batch, k)
    ensures claimed.None? ==> held == {}
    ensures claimed.Some? ==> Progress(seen, names, batch, |names|, claimed.value, held)
  {
    var list: seq<Name> := [];
    held := {};
    for i := 0 to |names|
      invariant Progress(seen, names, batch, i, list, held)
      invariant forall k: nat :: k < i ==> !MeetsStray(seen, names, batch, k)
    {
      OneMoreClaim(seen, names, batch, i, list, held);
      if |list| < batch && names[i] in seen[i].trees {
        NotHeldYet(seen, names, batch, i);
        var mine, fault := ClaimOne(seen[i], p, held, names[i]);
        if fault {
          assert MeetsStray(seen, names, batch, i);
          held := GiveBack(seen[0], list, held);
          return None, held;
        }
        if mine {
          held := held + {seen[i].leases[names[i]]};
          list := list + [names[i]];
        }
      }
    }
    claimed := Some(list);
  }

  /** The lease of the next name is none of those already claimed. */
  lemma NotHeldYet(seen: seq<Store>, names: seq<Name>, batch: nat, i: nat)
    requires Observations(seen, names) && i < |names|
    ensures names[i] in seen[i].leases ==> seen[i].leases[names[i]] !in LeasesOf(seen[0], Claims(seen, names, batch, i))
  {
    LeasesStay(seen, names, i);
    var list := Claims(seen, names, batch, i);
    forall n | n in list && n in seen[0].leases && names[i] in seen[i].leases ensures seen[0].leases[n] != seen[i].leases[names[i]] {
      assert n in names[..i];
      assert seen[0].files[seen[0].leases[n]] == TrashLease(n);
    }
  }

  /** A stray among the first names of the window, as many as a batch, always costs the whole pass. */
  lemma StrayAbortsThePass(seen: seq<Store>, names: seq<Name>, batch: nat, k: nat)
    requires Observations(seen, names) && k < |names| && k < batch && names[k] in seen[0].strays
    ensures exists j: nat :: MeetsStray(seen, names, batch, j)
  {
    LeasesStay(seen, names, k);
    assert MeetsStray(seen, names, batch, k);
  }
}
