/**
 The persistent round-robin windows of scripts/provision_zig.py, over the code-point order of
 directory names.
 */
module Rotation {
  import opened Shared
  import opened TextOrder

  predicate Sorted(names: seq<string>)
  {
    forall i, j :: 0 <= i < j < |names| ==> Less(names[i], names[j])
  }

  /** `bisect_right` on a sorted list: how many leading names are not after the cursor. */
  function BisectRight(names: seq<string>, cursor: string): (start: nat)
    ensures start <= |names|
    ensures forall i :: 0 <= i < start ==> !Less(cursor, names[i])
    ensures start < |names| ==> Less(cursor, names[start])
  {
    if names == [] || Less(cursor, names[0]) then 0 else 1 + BisectRight(names[1..], cursor)
  }

  function Rotated(names: seq<string>, cursor: string): (r: seq<string>)
    ensures |r| == |names|
  {
    var start := BisectRight(names, cursor);
    names[start..] + names[..start]
  }

  function Window(names: seq<string>, cursor: string, limit: nat): (r: seq<string>)
  {
    var rotated := Rotated(names, cursor);
    rotated[..if limit < |rotated| then limit else |rotated|]
  }

  function NextCursor(names: seq<string>, cursor: string, limit: nat): (r: string)
  {
    var selected := Window(names, cursor, limit);
    if selected == [] then cursor else selected[|selected| - 1]
  }

  /** A scan with its stored cursor. */
  class Scan {
    var cursor: string

    method RotatingWindow(names: seq<string>, limit: int) returns (selected: seq<string>)
      requires Sorted(names)
      modifies this
      ensures names == [] || limit <= 0 ==> selected == [] && cursor == old(cursor)
      ensures names != [] && limit > 0 ==>
                selected == Window(names, old(cursor), limit) && cursor == NextCursor(names, old(cursor), limit)
      ensures forall i, j :: 0 <= i < j < |selected| ==> selected[i] != selected[j]
    {
      selected := [];
      if names == [] || limit <= 0 {
        return;
      }
      var start := BisectRight(names, cursor);
      var rotated := names[start..] + names[..start];
      selected := rotated[..if limit < |rotated| then limit else |rotated|];
      WindowHasNoRepeats(names, cursor, limit);
      cursor := selected[|selected| - 1];
    }
  }

  lemma WindowHasNoRepeats(names: seq<string>, cursor: string, limit: nat)
    requires Sorted(names)
    ensures var w := Window(names, cursor, limit);
            forall i, j :: 0 <= i < j < |w| ==> w[i] != w[j]
  {
    RotatedHasNoRepeats(names, cursor);
  }

  lemma RotatedHasNoRepeats(names: seq<string>, cursor: string)
    requires Sorted(names)
    ensures var r := Rotated(names, cursor);
            forall i, j :: 0 <= i < j < |r| ==> r[i] != r[j]
  {
    var start := BisectRight(names, cursor);
    var r := Rotated(names, cursor);
    forall i, j | 0 <= i < j < |r| ensures r[i] != r[j] {
      var x := if i < |names| - start then i + start else i - (|names| - start);
      var y := if j < |names| - start then j + start else j - (|names| - start);
      assert r[i] == names[x] && r[j] == names[y] && x != y;
      LessIsAsymmetric(r[i], r[j]);
    }
  }

  // ----- the cyclic order -----

  /** Walking upwards from the cursor and around, `y` is met strictly before `x`. */
  predicate Before(cursor: string, y: string, x: string)
  {
    if Less(cursor, x) then Less(cursor, y) && Less(y, x) else Less(cursor, y) || Less(y, x)
  }

  function Ahead(names: seq<string>, cursor: string, x: string): (r: set<string>)
  {
    set y | y in names && Before(cursor, y, x)
  }

  /** Where the rotation puts the name at index `i`. */
  function Position(names: seq<string>, cursor: string, i: nat): (at: nat)
    requires i < |names|
    ensures at < |names| && Rotated(names, cursor)[at] == names[i]
  {
    var start := BisectRight(names, cursor);
    if start <= i then i - start else |names| - start + i
  }

  lemma NameAt(names: seq<string>, cursor: string, at: nat) returns (i: nat)
    requires at < |names|
    ensures i < |names| && Position(names, cursor, i) == at && Rotated(names, cursor)[at] == names[i]
  {
    var start := BisectRight(names, cursor);
    i := if at < |names| - start then at + start else at - (|names| - start);
  }

  lemma LessByIndex(names: seq<string>, i: nat, j: nat)
    requires Sorted(names) && i < |names| && j < |names|
    ensures Less(names[i], names[j]) <==> i < j
  {
    LessIsAsymmetric(names[i], names[j]);
  }

  lemma AfterCursorByIndex(names: seq<string>, cursor: string, i: nat)
    requires Sorted(names) && i < |names|
    ensures Less(cursor, names[i]) <==> BisectRight(names, cursor) <= i
  {
    var start := BisectRight(names, cursor);
    if start < i {
      assert Less(names[start], names[i]);
      LessIsTransitive(cursor, names[start], names[i]);
    } else if i < start {
      assert !Less(cursor, names[i]);
    }
  }

  /** The walk from the cursor follows the rotation. */
  lemma BeforeByPosition(names: seq<string>, cursor: string, i: nat, j: nat)
    requires Sorted(names) && i < |names| && j < |names|
    ensures Before(cursor, names[i], names[j]) <==> Position(names, cursor, i) < Position(names, cursor, j)
  {
    LessByIndex(names, i, j);
    AfterCursorByIndex(names, cursor, i);
    AfterCursorByIndex(names, cursor, j);
  }

  /** The names the rotation puts in front of `x` are those the walk meets before it. */
  lemma PositionInRotation(names: seq<string>, cursor: string, x: string) returns (at: nat)
    requires Sorted(names) && x in names
    ensures at < |names| && Rotated(names, cursor)[at] == x
    ensures Elements(Rotated(names, cursor)[..at]) == Ahead(names, cursor, x)
  {
    var r := Rotated(names, cursor);
    var j :| 0 <= j < |names| && names[j] == x;
    at := Position(names, cursor, j);
    forall y | y in r[..at] ensures y in Ahead(names, cursor, x) {
      var k :| 0 <= k < at && r[k] == y;
      var i := NameAt(names, cursor, k);
      BeforeByPosition(names, cursor, i, j);
    }
    forall y | y in Ahead(names, cursor, x) ensures y in r[..at] {
      var i :| 0 <= i < |names| && names[i] == y;
      BeforeByPosition(names, cursor, i, j);
      assert r[..at][Position(names, cursor, i)] == y;
    }
  }

  /** A window that misses `x` brings the cursor a whole window closer to it. */
  lemma MissedWindowMakesProgress(names: seq<string>, later: seq<string>, cursor: string, limit: nat, x: string)
    requires Sorted(names) && x in names && limit > 0
    requires forall y :: y in later ==> y in names
    requires x !in Window(names, cursor, limit)
    ensures |Ahead(later, NextCursor(names, cursor, limit), x)| + limit <= |Ahead(names, cursor, x)|
  {
    var r := Rotated(names, cursor);
    var at := PositionInRotation(names, cursor, x);
    PrefixMembers(r, if limit < |r| then limit else |r|);
    var w := r[..limit];
    assert Window(names, cursor, limit) == w;
    var next := w[limit - 1];
    WindowHasNoRepeats(names, cursor, limit);
    DistinctSize(w);
    var seen := Elements(w);
    assert seen <= Ahead(names, cursor, x) by {
      forall y | y in seen ensures y in Elements(r[..at]) {
        var i :| 0 <= i < limit && w[i] == y;
        assert r[..at][i] == y;
      }
    }
    forall y | y in Ahead(later, next, x) ensures y in Ahead(names, cursor, x) && y !in seen {
      WalkContinues(names, cursor, limit, x, y);
    }
    var rest := Ahead(later, next, x);
    assert rest + seen <= Ahead(names, cursor, x) && rest !! seen;
    SubsetSize(rest + seen, Ahead(names, cursor, x));
  }

  lemma WalkByIndex(names: seq<string>, cursor: string, i: nat, j: nat, k: nat)
    requires Sorted(names) && i < |names| && j < |names| && k < |names|
    requires Position(names, cursor, k) < Position(names, cursor, j) && Before(names[k], names[i], names[j])
    ensures Before(cursor, names[i], names[j]) && Position(names, cursor, i) > Position(names, cursor, k)
  {
    BeforeByPosition(names, cursor, k, j);
    CyclicStep(cursor, names[k], names[i], names[j]);
    BeforeByPosition(names, cursor, i, k);
    assert i != k ==> Position(names, cursor, i) != Position(names, cursor, k);
  }

  lemma MissedLiesBeyond(names: seq<string>, cursor: string, limit: nat, j: nat)
    requires limit <= |names| && j < |names| && names[j] !in Rotated(names, cursor)[..limit]
    ensures limit <= Position(names, cursor, j)
  {
    PrefixMembers(Rotated(names, cursor), limit);
  }

  /** What the walk meets between the new cursor and `x` it has not met before the new cursor. */
  lemma WalkContinues(names: seq<string>, cursor: string, limit: nat, x: string, y: string)
    requires Sorted(names) && x in names && y in names && 0 < limit <= |names|
    requires x !in Rotated(names, cursor)[..limit]
    requires Before(Rotated(names, cursor)[limit - 1], y, x)
    ensures Before(cursor, y, x) && y !in Rotated(names, cursor)[..limit]
  {
    var r := Rotated(names, cursor);
    var i :| 0 <= i < |names| && names[i] == y;
    var j :| 0 <= j < |names| && names[j] == x;
    var k := NameAt(names, cursor, limit - 1);
    MissedLiesBeyond(names, cursor, limit, j);
    WalkByIndex(names, cursor, i, j, k);
    RotatedHasNoRepeats(names, cursor);
    NotInPrefix(r, Position(names, cursor, i), limit);
  }

  lemma PrefixMembers(r: seq<string>, limit: nat)
    requires limit <= |r|
    ensures forall i :: 0 <= i < limit ==> r[i] in r[..limit]
  {
    forall i | 0 <= i < limit ensures r[i] in r[..limit] {
      assert r[..limit][i] == r[i];
    }
  }

  lemma NotInPrefix(r: seq<string>, at: nat, limit: nat)
    requires limit <= at < |r|
    requires forall i, j :: 0 <= i < j < |r| ==> r[i] != r[j]
    ensures r[at] !in r[..limit]
  {
  }

  /** Of three points on a walk, the third lies beyond the second as seen from the first. */
  lemma CyclicStep(cursor: string, next: string, y: string, x: string)
    requires Before(cursor, next, x) && Before(next, y, x)
    ensures Before(cursor, y, x) && !Before(cursor, y, next) && y != next
  {
    LessIsStrictTotalOrder();
  }

  // ----- coverage -----

  /** Successive directory listings: each sorted, each without names the one before lacked. */
  ghost predicate Shrinking(lists: seq<seq<string>>)
  {
    && (forall i :: 0 <= i < |lists| ==> Sorted(lists[i]))
    && (forall i :: 0 < i < |lists| ==> forall y :: y in lists[i] ==> y in lists[i - 1])
  }

  /** The window some call of the series returns contains `x`. */
  predicate Covered(lists: seq<seq<string>>, cursor: string, limit: nat, x: string)
    decreases |lists|
  {
    lists != [] &&
    (x in Window(lists[0], cursor, limit) || Covered(lists[1..], NextCursor(lists[0], cursor, limit), limit, x))
  }

  lemma {:induction false} CoveredWithinDistance(lists: seq<seq<string>>, cursor: string, limit: nat, x: string)
    requires lists != [] && limit > 0 && Shrinking(lists)
    requires forall i :: 0 <= i < |lists| ==> x in lists[i]
    requires |Ahead(lists[0], cursor, x)| < |lists| * limit
    ensures Covered(lists, cursor, limit, x)
    decreases |lists|
  {
    if x !in Window(lists[0], cursor, limit) {
      var later := if |lists| > 1 then lists[1] else lists[0];
      MissedWindowMakesProgress(lists[0], later, cursor, limit, x);
      assert (|lists| - 1) * limit == |lists| * limit - limit;
      assert |lists| > 1;
      forall i | 0 < i < |lists[1..]| ensures forall y :: y in lists[1..][i] ==> y in lists[1..][i - 1] {
        assert lists[1..][i] == lists[i + 1] && lists[1..][i - 1] == lists[i];
      }
      CoveredWithinDistance(lists[1..], NextCursor(lists[0], cursor, limit), limit, x);
    }
  }

  /** Fewer names than there are lie ahead of one of them. */
  lemma AheadIsFewer(names: seq<string>, cursor: string, x: string)
    requires Sorted(names) && x in names
    ensures |Ahead(names, cursor, x)| < |names|
  {
    var at := PositionInRotation(names, cursor, x);
    RotatedHasNoRepeats(names, cursor);
    DistinctSize(Rotated(names, cursor)[..at]);
    assert |Ahead(names, cursor, x)| == at;
  }

  /**
   Fairness: a name that stays present is returned within ceil(n / limit) calls, from any
   stored cursor and even while other names disappear between calls.
   */
  lemma EveryNameIsCovered(lists: seq<seq<string>>, cursor: string, limit: nat, x: string)
    requires lists != [] && limit > 0 && Shrinking(lists)
    requires forall i :: 0 <= i < |lists| ==> x in lists[i]
    requires |lists[0]| <= |lists| * limit
    ensures Covered(lists, cursor, limit, x)
  {
    AheadIsFewer(lists[0], cursor, x);
    CoveredWithinDistance(lists, cursor, limit, x);
  }
}
