/**
 The bounded descendant search of benchmarks/upstream.py: from the processes already known,
 the command's root and newly adopted children, follow parent links breadth first, and stop
 with an error at the containment limit.
 */
module Descendants {
  import opened Shared

  datatype Info = Info(pid: int, ppid: int, start: int)

  type Identity = (int, int)

  datatype Result = Found(processes: seq<Info>) | LimitExceeded(discovered: seq<Info>, overflow: Info)

  function Id(info: Info): (id: Identity)
  {
    (info.pid, info.start)
  }

  /** The process table, in iteration order, keyed by process number. */
  predicate Keyed(table: seq<Info>)
  {
    forall i, j :: 0 <= i < j < |table| ==> table[i].pid != table[j].pid
  }

  function Get(table: seq<Info>, pid: int): (r: Option<Info>)
    ensures r.Some? ==> r.value in table && r.value.pid == pid
    ensures r.None? ==> forall info :: info in table ==> info.pid != pid
  {
    if table == [] then None
    else if table[0].pid == pid then Some(table[0])
    else Get(table[1..], pid)
  }

  predicate Adopted(info: Info, owner: int, baseline: set<Identity>)
  {
    info.ppid == owner && Id(info) !in baseline && info.pid != owner
  }

  /** Where the search starts: identities still in the table, and children adopted since the baseline. */
  function Seeds(table: seq<Info>, known: seq<Identity>, root: Option<Identity>, owner: int, baseline: set<Identity>)
    : (seeds: set<Info>)
  {
    set info | info in table && (Id(info) in known || root == Some(Id(info)) || Adopted(info, owner, baseline))
  }

  // ----- the reference definition -----

  ghost predicate IsChild(table: seq<Info>, info: Info, parents: set<Info>)
  {
    info in table && exists parent :: parent in parents && info.ppid == parent.pid
  }

  ghost predicate Closed(table: seq<Info>, s: set<Info>)
  {
    forall info :: IsChild(table, info, s) ==> info in s
  }

  /** Add children until none is missing. */
  ghost function Closure(table: seq<Info>, s: set<Info>): (r: set<Info>)
    requires s <= Elements(table)
    ensures s <= r <= Elements(table) && Closed(table, r)
    decreases Elements(table) - s
  {
    if Closed(table, s) then s
    else
      var info :| IsChild(table, info, s) && info !in s;
      Closure(table, s + {info})
  }

  /** The closure is the least closed set: every closed set with the same start contains it. */
  lemma {:induction false} ClosureIsLeast(table: seq<Info>, s: set<Info>, other: set<Info>)
    requires s <= Elements(table) && s <= other && Closed(table, other)
    ensures Closure(table, s) <= other
    decreases Elements(table) - s
  {
    if !Closed(table, s) {
      var info :| IsChild(table, info, s) && info !in s && Closure(table, s) == Closure(table, s + {info});
      var parent :| parent in s && info.ppid == parent.pid;
      assert parent in other;
      assert IsChild(table, info, other);
      ClosureIsLeast(table, s + {info}, other);
    }
  }

  // ----- bookkeeping -----

  predicate Distinct(frontier: seq<Info>)
  {
    forall i, j :: 0 <= i < j < |frontier| ==> Id(frontier[i]) != Id(frontier[j])
  }

  function Ids(frontier: seq<Info>): (s: set<Identity>)
  {
    set info | info in frontier :: Id(info)
  }

  /** What the search has admitted so far. */
  ghost predicate Admitted(table: seq<Info>, least: set<Info>, frontier: seq<Info>, discovered: set<Identity>, limit: nat)
  {
    Distinct(frontier) && discovered == Ids(frontier) && Elements(frontier) <= least && |frontier| <= limit
  }

  /** Within one table an identity stands for one process. */
  lemma KnownIsPresent(table: seq<Info>, frontier: seq<Info>, info: Info)
    requires Keyed(table) && Elements(frontier) <= Elements(table) && info in table && Id(info) in Ids(frontier)
    ensures info in frontier
  {
    var other :| other in frontier && Id(other) == Id(info);
    assert other in Elements(frontier);
    var i :| 0 <= i < |table| && table[i] == info;
    var j :| 0 <= j < |table| && table[j] == other;
  }

  /** `admit`: add a new identity, or report the limit. */
  method Admit(table: seq<Info>, ghost least: set<Info>, frontier: seq<Info>, discovered: set<Identity>, limit: nat, info: Info)
    returns (more: seq<Info>, ids: set<Identity>, overflow: bool)
    requires Keyed(table) && least <= Elements(table) && info in least
    requires Admitted(table, least, frontier, discovered, limit)
    ensures !overflow ==> Admitted(table, least, more, ids, limit) && frontier <= more && info in more
    ensures overflow ==> more == frontier && |frontier| == limit && info !in frontier
  {
    more, ids, overflow := frontier, discovered, false;
    if Id(info) in discovered {
      KnownIsPresent(table, frontier, info);
      return;
    }
    if |discovered| >= limit {
      IdsSize(frontier);
      overflow := true;
      return;
    }
    IdsSize(frontier);
    ids := ids + {Id(info)};
    more := more + [info];
    assert Elements(more) == Elements(frontier) + {info};
    assert Ids(more) == Ids(frontier) + {Id(info)};
  }

  lemma {:induction false} IdsSize(frontier: seq<Info>)
    requires Distinct(frontier)
    ensures |Ids(frontier)| == |frontier|
  {
    if frontier == [] {
      assert Ids(frontier) == {};
    } else {
      var last := |frontier| - 1;
      IdsSize(frontier[..last]);
      assert Ids(frontier) == Ids(frontier[..last]) + {Id(frontier[last])};
    }
  }

  /** The adjacency lists and the adopted children, from one pass over the table. */
  method Index(table: seq<Info>, owner: int, baseline: set<Identity>)
    returns (children: map<int, seq<Info>>, adopted: seq<Info>)
    ensures forall pid, info :: (pid in children && info in children[pid]) <==> (info in table && info.ppid == pid)
    ensures forall info :: info in adopted <==> info in table && Adopted(info, owner, baseline)
  {
    children, adopted := map[], [];
    for i := 0 to |table|
      invariant forall pid, info :: (pid in children && info in children[pid]) <==> (info in table[..i] && info.ppid == pid)
      invariant forall info :: info in adopted <==> info in table[..i] && Adopted(info, owner, baseline)
    {
      var info := table[i];
      assert table[..i + 1] == table[..i] + [info];
      var siblings := if info.ppid in children then children[info.ppid] else [];
      children := children[info.ppid := siblings + [info]];
      if Adopted(info, owner, baseline) {
        adopted := adopted + [info];
      }
    }
    assert table[..|table|] == table;
  }

  /** What a result must be, for the least closed set the search is after. */
  ghost predicate Answers(result: Result, least: set<Info>, limit: nat)
  {
    match result
    case Found(processes) => Distinct(processes) && Elements(processes) == least && |least| <= limit
    case LimitExceeded(discovered, overflow) =>
      && Distinct(discovered) && |discovered| == limit && Elements(discovered) <= least
      && overflow in least && overflow !in discovered && |least| > limit
  }

  lemma OverflowAnswers(table: seq<Info>, least: set<Info>, frontier: seq<Info>, discovered: set<Identity>, limit: nat, info: Info)
    requires Admitted(table, least, frontier, discovered, limit)
    requires |frontier| == limit && info in least && info !in frontier
    ensures Answers(LimitExceeded(frontier, info), least, limit)
  {
    FrontierSize(frontier, least);
    SubsetSize(Elements(frontier) + {info}, least);
  }

  /** Admits the process of an identity, if the table still has it. */
  method AdmitIdentity(table: seq<Info>, ghost least: set<Info>, start: seq<Info>, ids: set<Identity>, limit: nat, id: Identity)
    returns (frontier: seq<Info>, discovered: set<Identity>, overflow: Option<Info>)
    requires Keyed(table) && least <= Elements(table) && Admitted(table, least, start, ids, limit)
    requires forall info :: info in table && Id(info) == id ==> info in least
    ensures Admitted(table, least, frontier, discovered, limit) && start <= frontier
    ensures overflow.None? ==> forall info :: info in table && Id(info) == id ==> info in frontier
    ensures overflow.Some? ==> |frontier| == limit && overflow.value in least && overflow.value !in frontier
  {
    var entry := Get(table, id.0);
    SamePidSameRow(table, id, entry);
    if entry.Some? && entry.value.start == id.1 {
      assert Id(entry.value) == id;
      frontier, discovered, overflow := AdmitAll(table, least, start, ids, limit, [entry.value]);
    } else {
      frontier, discovered, overflow := start, ids, None;
    }
  }

  /**
   The search returns, without repetition, exactly the least set that contains the seeds and
   every child of a member, cyclic parent links included; it reports the limit exactly when
   that set is larger, having then discovered exactly that many members.
   */
  method LinuxDescendantProcesses(
    table: seq<Info>, known: seq<Identity>, root: Option<Identity>, owner: int, baseline: set<Identity>, limit: nat)
    returns (result: Result)
    requires Keyed(table)
    ensures Answers(result, Closure(table, Seeds(table, known, root, owner, baseline)), limit)
  {
    ghost var seeds := Seeds(table, known, root, owner, baseline);
    ghost var least := Closure(table, seeds);
    var children, adopted := Index(table, owner, baseline);
    var frontier: seq<Info>, discovered: set<Identity>, overflow: Option<Info> := [], {}, None;

    for i := 0 to |known|
      invariant Admitted(table, least, frontier, discovered, limit)
      invariant forall info :: info in table && Id(info) in known[..i] ==> info in frontier
    {
      assert known[..i + 1] == known[..i] + [known[i]];
      ghost var before := frontier;
      frontier, discovered, overflow := AdmitIdentity(table, least, frontier, discovered, limit, known[i]);
      if overflow.Some? {
        OverflowAnswers(table, least, frontier, discovered, limit, overflow.value);
        return LimitExceeded(frontier, overflow.value);
      }
      assert forall info :: info in before ==> info in frontier;
    }
    assert known[..|known|] == known;

    ghost var fromKnown := frontier;
    if root.Some? {
      frontier, discovered, overflow := AdmitIdentity(table, least, frontier, discovered, limit, root.value);
      if overflow.Some? {
        OverflowAnswers(table, least, frontier, discovered, limit, overflow.value);
        return LimitExceeded(frontier, overflow.value);
      }
    }
    assert forall info :: info in fromKnown ==> info in frontier;
    ghost var fromRoot := frontier;
    frontier, discovered, overflow := AdmitAll(table, least, frontier, discovered, limit, adopted);
    if overflow.Some? {
      OverflowAnswers(table, least, frontier, discovered, limit, overflow.value);
      return LimitExceeded(frontier, overflow.value);
    }
    assert forall info :: info in fromRoot ==> info in frontier;
    assert seeds <= Elements(frontier);
    result := Search(table, children, least, seeds, frontier, discovered, limit);
  }

  lemma SamePidSameRow(table: seq<Info>, id: Identity, entry: Option<Info>)
    requires Keyed(table) && entry == Get(table, id.0)
    ensures forall info :: info in table && Id(info) == id ==> entry == Some(info)
  {
    forall info | info in table && Id(info) == id ensures entry == Some(info) {
      var i :| 0 <= i < |table| && table[i] == info;
      var j :| 0 <= j < |table| && table[j] == entry.value;
    }
  }

  /** The processes a parent identifier leads to are those of the table. */
  ghost predicate Indexed(table: seq<Info>, children: map<int, seq<Info>>)
  {
    forall pid, info :: (pid in children && info in children[pid]) <==> (info in table && info.ppid == pid)
  }

  /** The cursor loop: admit the children of each admitted process in turn. */
  method Expand(table: seq<Info>, children: map<int, seq<Info>>, ghost least: set<Info>, start: seq<Info>, ids: set<Identity>, limit: nat)
    returns (frontier: seq<Info>, discovered: set<Identity>, overflow: Option<Info>)
    requires Keyed(table) && least <= Elements(table) && Closed(table, least) && Indexed(table, children)
    requires Admitted(table, least, start, ids, limit)
    ensures Admitted(table, least, frontier, discovered, limit) && start <= frontier
    ensures overflow.None? ==> Closed(table, Elements(frontier))
    ensures overflow.Some? ==> |frontier| == limit && overflow.value in least && overflow.value !in frontier
  {
    frontier, discovered, overflow := start, ids, None;
    var cursor := 0;
    FrontierSize(frontier, least);
    while cursor < |frontier|
      invariant cursor <= |frontier| <= |least| && start <= frontier
      invariant overflow.None? && Admitted(table, least, frontier, discovered, limit)
      invariant ChildrenIn(table, frontier[..cursor], frontier)
      decreases |least| - cursor
    {
      var parent := frontier[cursor];
      assert parent in Elements(frontier);
      var mine := if parent.pid in children then children[parent.pid] else [];
      assert forall info :: info in mine <==> info in table && info.ppid == parent.pid;
      ghost var before := frontier;
      frontier, discovered, overflow := AdmitAll(table, least, frontier, discovered, limit, mine);
      if overflow.Some? {
        return;
      }
      OneMoreParent(table, before, frontier, cursor, mine);
      cursor := cursor + 1;
      FrontierSize(frontier, least);
    }
    assert frontier[..cursor] == frontier;
    FinishedIsClosed(table, frontier);
  }

  /** From the seeds, the search reaches exactly the closure or reports the limit. */
  method Search(table: seq<Info>, children: map<int, seq<Info>>, ghost least: set<Info>, ghost seeds: set<Info>,
                start: seq<Info>, ids: set<Identity>, limit: nat)
    returns (result: Result)
    requires Keyed(table) && seeds <= Elements(table) && least == Closure(table, seeds) && Indexed(table, children)
    requires Admitted(table, least, start, ids, limit) && seeds <= Elements(start)
    ensures Answers(result, least, limit)
  {
    var frontier, discovered, overflow := Expand(table, children, least, start, ids, limit);
    if overflow.Some? {
      OverflowAnswers(table, least, frontier, discovered, limit, overflow.value);
      return LimitExceeded(frontier, overflow.value);
    }
    assert forall info :: info in start ==> info in frontier;
    ClosureIsLeast(table, seeds, Elements(frontier));
    assert Elements(frontier) == least;
    FrontierSize(frontier, least);
    result := Found(frontier);
  }

  /** Admits a list of processes in order. */
  method AdmitAll(table: seq<Info>, ghost least: set<Info>, start: seq<Info>, ids: set<Identity>, limit: nat, mine: seq<Info>)
    returns (frontier: seq<Info>, discovered: set<Identity>, overflow: Option<Info>)
    requires Keyed(table) && least <= Elements(table) && Admitted(table, least, start, ids, limit)
    requires forall info :: info in mine ==> info in least
    ensures Admitted(table, least, frontier, discovered, limit) && start <= frontier
    ensures overflow.None? ==> forall info :: info in mine ==> info in frontier
    ensures overflow.Some? ==> |frontier| == limit && overflow.value in least && overflow.value !in frontier
  {
    frontier, discovered, overflow := start, ids, None;
    for i := 0 to |mine|
      invariant start <= frontier && Admitted(table, least, frontier, discovered, limit)
      invariant forall j :: 0 <= j < i ==> mine[j] in frontier
    {
      var full;
      frontier, discovered, full := Admit(table, least, frontier, discovered, limit, mine[i]);
      if full {
        return frontier, Ids(frontier), Some(mine[i]);
      }
    }
  }

  lemma FrontierSize(frontier: seq<Info>, least: set<Info>)
    requires Distinct(frontier) && Elements(frontier) <= least
    ensures |Elements(frontier)| == |frontier| <= |least|
  {
    forall i, j | 0 <= i < j < |frontier| ensures frontier[i] != frontier[j] {
      assert Id(frontier[i]) != Id(frontier[j]);
    }
    DistinctSize(frontier);
    SubsetSize(Elements(frontier), least);
  }

  /** Every child of the first processes has been admitted. */
  ghost predicate ChildrenIn(table: seq<Info>, parents: seq<Info>, frontier: seq<Info>)
  {
    forall info, parent :: parent in parents && info in table && info.ppid == parent.pid ==> info in frontier
  }

  lemma OneMoreParent(table: seq<Info>, before: seq<Info>, frontier: seq<Info>, cursor: nat, mine: seq<Info>)
    requires before <= frontier && cursor < |before| && ChildrenIn(table, before[..cursor], before)
    requires forall info :: info in mine <==> info in table && info.ppid == before[cursor].pid
    requires forall info :: info in mine ==> info in frontier
    ensures ChildrenIn(table, frontier[..cursor + 1], frontier)
  {
    assert frontier[..cursor + 1] == before[..cursor] + [before[cursor]];
    assert forall info :: info in before ==> info in frontier;
  }

  lemma FinishedIsClosed(table: seq<Info>, frontier: seq<Info>)
    requires ChildrenIn(table, frontier, frontier)
    ensures Closed(table, Elements(frontier))
  {
  }
}
