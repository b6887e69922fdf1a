/**
 * The server's command queue (cpc/server/queue/cmdqueue.py): 61 deques, one
 * per priority from 30 down to -30, highest first, plus a deque of items
 * found inactive.  Each item remembers the deque it was put in
 * (QueueableItem.setQueue); here those back-pointers are a map kept by the
 * queue.
 */
module CmdQueue {
  import opened Wrappers
  import opened Text

  const PrioLowBound: int := -30
  const PrioHighBound: int := 30
  /** `len(xrange(PRIO_LOW_BOUND - 1, PRIO_HIGH_BOUND))`. */
  const NumDeques: nat := 61

  /**
   * A queued command: QueueableItem's `active` flag, the command's full
   * priority (task priority plus added priority) and its task's project.
   */
  class QueueableItem {
    var active: bool
    var priority: int
    const project: String

    constructor (priority: int, project: String)
      ensures active && this.priority == priority && this.project == project
    {
      active := true;
      this.priority := priority;
      this.project := project;
    }

    /** deactivate: only the flag changes; the item stays where it is queued. */
    method Deactivate()
      modifies this
      ensures !active && priority == old(priority)
    {
      active := false;
    }
  }

  /** Where an item's back-pointer points: a priority deque or the inactive deque. */
  datatype Loc = InDeque(index: DequeNumber) | Inactive

  /** The position of one of the priority deques. */
  type DequeNumber = i: nat | i < 61

  datatype QueueError = WrongQueue | NotInInactive

  /** _getDeque: the priority is clamped to the bounds and the highest priority comes first. */
  function DequeIndex(prio: int): (p: DequeNumber)
    ensures PrioLowBound <= prio <= PrioHighBound ==> p == PrioHighBound - prio
    ensures prio < PrioLowBound ==> p == NumDeques - 1
    ensures prio > PrioHighBound ==> p == 0
  {
    var low := if prio < PrioLowBound then PrioLowBound else prio;
    var clamped := if low > PrioHighBound then PrioHighBound else low;
    PrioHighBound - clamped
  }

  /** A higher priority never lands in a later deque. */
  lemma DequeIndexMonotone(a: int, b: int)
    requires a <= b
    ensures DequeIndex(b) <= DequeIndex(a)
  {
  }

  // ---------------------------------------------------------------- sequence helpers

  function Flatten<T>(qs: seq<seq<T>>): seq<T> {
    if |qs| == 0 then [] else Flatten(qs[..|qs| - 1]) + qs[|qs| - 1]
  }

  lemma FlattenLength<T>(qs: seq<seq<T>>, j: nat)
    requires j < |qs|
    ensures |Flatten(qs[..j + 1])| == |Flatten(qs[..j])| + |qs[j]|
  {
    assert qs[..j + 1][..j] == qs[..j];
  }

  /** The active items of a deque, in order. */
  function ActiveOnly(s: seq<QueueableItem>): (r: seq<QueueableItem>)
    reads s
    ensures forall i :: 0 <= i < |r| ==> r[i] in s && r[i].active
  {
    if |s| == 0 then []
    else
      var init := ActiveOnly(s[..|s| - 1]);
      if s[|s| - 1].active then init + [s[|s| - 1]] else init
  }

  lemma {:induction false} ActiveOnlyAppend(a: seq<QueueableItem>, b: seq<QueueableItem>)
    ensures ActiveOnly(a + b) == ActiveOnly(a) + ActiveOnly(b)
    decreases |b|
  {
    if |b| == 0 {
      assert a + b == a;
    } else {
      ActiveOnlyAppend(a, b[..|b| - 1]);
      assert (a + b)[..|a + b| - 1] == a + b[..|b| - 1];
    }
  }

  /** The deque without any occurrence of `x`, in order. */
  function Without(s: seq<QueueableItem>, x: QueueableItem): (r: seq<QueueableItem>)
    ensures x !in r && |r| <= |s|
    ensures forall i :: 0 <= i < |r| ==> r[i] in s
    ensures x !in s ==> r == s
  {
    if |s| == 0 then []
    else
      var init := Without(s[..|s| - 1], x);
      if s[|s| - 1] == x then init else init + [s[|s| - 1]]
  }

  /** Removing every occurrence of `x` drops exactly its multiplicity and nothing else. */
  lemma {:induction false} WithoutCount(s: seq<QueueableItem>, x: QueueableItem)
    ensures |Without(s, x)| + multiset(s)[x] == |s|
    ensures multiset(Without(s, x)) == multiset(s)[x := 0]
    decreases |s|
  {
    if |s| > 0 {
      var init := s[..|s| - 1];
      WithoutCount(init, x);
      assert s == init + [s[|s| - 1]];
    }
  }

  /** The deque without the items of `project`, in order. */
  function OtherProjects(s: seq<QueueableItem>, project: String): (r: seq<QueueableItem>)
    ensures |r| <= |s|
    ensures forall i :: 0 <= i < |r| ==> r[i] in s && r[i].project != project
    ensures forall i :: 0 <= i < |s| && s[i].project != project ==> s[i] in r
  {
    if |s| == 0 then []
    else
      var init := OtherProjects(s[..|s| - 1], project);
      assert forall i :: 0 <= i < |s| - 1 ==> s[..|s| - 1][i] == s[i];
      if s[|s| - 1].project == project then init else init + [s[|s| - 1]]
  }

  /** The first position of a deque holding an active item, or its length. */
  function FirstActive(s: seq<QueueableItem>, act: set<QueueableItem>): (k: nat)
    ensures k <= |s| && (k < |s| ==> s[k] in act)
    ensures forall i :: 0 <= i < k ==> s[i] !in act
  {
    if |s| == 0 then 0
    else if s[0] in act then 0
    else 1 + FirstActive(s[1..], act)
  }

  /** The index of `x` in the first occurrence, for inactiveItems.remove. */
  function RemoveFirst(s: seq<QueueableItem>, x: QueueableItem): (r: seq<QueueableItem>)
    requires x in s
    ensures |r| == |s| - 1
    ensures multiset(r) == multiset(s) - multiset{x}
  {
    assert s == [s[0]] + s[1..];
    if s[0] == x then s[1..] else [s[0]] + RemoveFirst(s[1..], x)
  }

  // ---------------------------------------------------------------- back-pointers

  /** One setQueue call: the item's back-pointer is set to a deque, or cleared. */
  datatype Move = Move(item: QueueableItem, to: Option<Loc>)

  function SetLoc(m: map<QueueableItem, Loc>, mv: Move): map<QueueableItem, Loc> {
    match mv.to
    case Some(l) => m[mv.item := l]
    case None => m - {mv.item}
  }

  /** The back-pointers after a series of setQueue calls, in order. */
  function Apply(m: map<QueueableItem, Loc>, moves: seq<Move>): map<QueueableItem, Loc> {
    if |moves| == 0 then m else SetLoc(Apply(m, moves[..|moves| - 1]), moves[|moves| - 1])
  }

  lemma ApplySnoc(m: map<QueueableItem, Loc>, moves: seq<Move>, mv: Move)
    ensures Apply(m, moves + [mv]) == SetLoc(Apply(m, moves), mv)
  {
    assert (moves + [mv])[..|moves|] == moves;
  }

  /** Items that never appear in a series of setQueue calls keep their back-pointers. */
  lemma {:induction false} ApplyOthers(m: map<QueueableItem, Loc>, moves: seq<Move>, x: QueueableItem)
    requires forall i :: 0 <= i < |moves| ==> moves[i].item != x
    ensures (x in Apply(m, moves) <==> x in m)
    ensures x in m ==> Apply(m, moves)[x] == m[x]
    decreases |moves|
  {
    if |moves| > 0 {
      ApplyOthers(m, moves[..|moves| - 1], x);
    }
  }

  /** Every item moved to the inactive deque. */
  function ToInactive(xs: seq<QueueableItem>): (r: seq<Move>)
    ensures |r| == |xs| && forall i :: 0 <= i < |xs| ==> r[i] == Move(xs[i], Some(Inactive))
  {
    seq(|xs|, i requires 0 <= i < |xs| => Move(xs[i], Some(Inactive)))
  }

  // ---------------------------------------------------------------- getUntil scan

  /**
   * The state of getUntil's scan: within the current deque the position
   * and the active items rotated to the back (kept); across deques the
   * items popped, the inactive items moved away, the back-pointer updates,
   * the items shown to `fn`, and `cont`.
   */
  datatype Scan = Scan(pos: nat, kept: seq<QueueableItem>, popped: seq<QueueableItem>,
                       moved: seq<QueueableItem>, moves: seq<Move>, seen: seq<QueueableItem>, cont: bool)

  /**
   * One iteration of getUntil's inner loop at `st.pos`.  `fn` is shown the
   * items seen so far (the last one is the current item) and answers
   * (cont, doPop); the source's `parm` argument is part of `fn`.
   */
  function ScanStep(d: seq<QueueableItem>, act: set<QueueableItem>, st: Scan, fn: seq<QueueableItem> -> (bool, bool)): (r: Scan)
    requires st.pos < |d|
    ensures r.pos == st.pos + 1
  {
    var x := d[st.pos];
    if x in act then
      var seen := st.seen + [x];
      var answer := fn(seen);
      if answer.1 then
        Scan(st.pos + 1, st.kept, st.popped + [x], st.moved, st.moves + [Move(x, None)], seen, answer.0)
      else
        Scan(st.pos + 1, st.kept + [x], st.popped, st.moved, st.moves, seen, answer.0)
    else
      st.(pos := st.pos + 1, moved := st.moved + [x], moves := st.moves + [Move(x, Some(Inactive))])
  }

  /** The scan of one deque from `st.pos` on, until its end or until `fn` says stop. */
  function ScanFrom(d: seq<QueueableItem>, act: set<QueueableItem>, st: Scan, fn: seq<QueueableItem> -> (bool, bool)): (r: Scan)
    requires st.pos <= |d|
    ensures st.pos <= r.pos <= |d|
    decreases |d| - st.pos
  {
    if st.pos == |d| || !st.cont then st else ScanFrom(d, act, ScanStep(d, act, st, fn), fn)
  }

  const ScanInit := Scan(0, [], [], [], [], [], true)

  /** The scan state the next deque starts from. */
  function Restart(st: Scan): (r: Scan)
    ensures r.pos == 0 && r.kept == []
  {
    st.(pos := 0, kept := [])
  }

  /** The items of the deques. */
  function Items(qs: seq<seq<QueueableItem>>): set<QueueableItem> {
    set s, x | s in qs && x in s :: x
  }

  /**
   * getUntil over all deques from the one after `acc` on: `acc` holds the
   * deques already scanned, as they were left (kept items rotated back to
   * the front).  The result is the new deques and the final scan state.
   */
  function ScanQueues(qs: seq<seq<QueueableItem>>, act: set<QueueableItem>, acc: seq<seq<QueueableItem>>, cur: Scan,
                      fn: seq<QueueableItem> -> (bool, bool)): (r: (seq<seq<QueueableItem>>, Scan))
    requires |acc| <= |qs| && cur.pos == 0 && cur.kept == []
    ensures |r.0| == |qs| && r.0[..|acc|] == acc
    decreases |qs| - |acc|
  {
    if |acc| == |qs| || !cur.cont then (acc + qs[|acc|..], cur)
    else
      var d := qs[|acc|];
      var st := ScanFrom(d, act, cur, fn);
      var r := ScanQueues(qs, act, acc + [st.kept + d[st.pos..]], Restart(st), fn);
      assert r.0[..|acc|] == (acc + [st.kept + d[st.pos..]])[..|acc|];
      r
  }

  /** `a` is a subsequence of `b` (matched from the back). */
  predicate IsSubseq(a: seq<QueueableItem>, b: seq<QueueableItem>) {
    |a| == 0 || (|b| > 0 &&
      if a[|a| - 1] == b[|b| - 1] then IsSubseq(a[..|a| - 1], b[..|b| - 1]) else IsSubseq(a, b[..|b| - 1]))
  }

  lemma {:induction false} SubseqRefl(a: seq<QueueableItem>)
    ensures IsSubseq(a, a)
    decreases |a|
  {
    if |a| > 0 {
      SubseqRefl(a[..|a| - 1]);
    }
  }

  lemma SubseqKeep(a: seq<QueueableItem>, b: seq<QueueableItem>, x: QueueableItem)
    requires IsSubseq(a, b)
    ensures IsSubseq(a + [x], b + [x])
  {
    assert (a + [x])[..|a|] == a && (b + [x])[..|b|] == b;
  }

  lemma {:induction false} SubseqSkip(a: seq<QueueableItem>, b: seq<QueueableItem>, x: QueueableItem)
    requires IsSubseq(a, b)
    ensures IsSubseq(a, b + [x])
    decreases |b|, 1
  {
    assert (b + [x])[..|b|] == b;
    if |a| > 0 && a[|a| - 1] == x {
      SubseqDrop(a, b);
    }
  }

  lemma {:induction false} SubseqDrop(a: seq<QueueableItem>, b: seq<QueueableItem>)
    requires |a| > 0 && IsSubseq(a, b)
    ensures IsSubseq(a[..|a| - 1], b)
    decreases |b|, 0
  {
    var a', b' := a[..|a| - 1], b[..|b| - 1];
    if a[|a| - 1] == b[|b| - 1] {
      SubseqSkip(a', b', b[|b| - 1]);
      assert b' + [b[|b| - 1]] == b;
    } else {
      SubseqDrop(a, b');
      SubseqSkip(a', b', b[|b| - 1]);
      assert b' + [b[|b| - 1]] == b;
    }
  }

  lemma {:induction false} SubseqAppend(a: seq<QueueableItem>, b: seq<QueueableItem>, c: seq<QueueableItem>)
    requires IsSubseq(a, b)
    ensures IsSubseq(a + c, b + c)
    decreases |c|
  {
    if |c| == 0 {
      assert a + c == a && b + c == b;
    } else {
      var c', y := c[..|c| - 1], c[|c| - 1];
      assert c == c' + [y];
      SubseqAppend(a, b, c');
      SubseqKeep(a + c', b + c', y);
      assert a + c == (a + c') + [y];
      assert b + c == (b + c') + [y];
    }
  }

  /** One scan step keeps the kept items a subsequence of the scanned prefix. */
  lemma StepKeepsOrder(d: seq<QueueableItem>, act: set<QueueableItem>, st: Scan, fn: seq<QueueableItem> -> (bool, bool))
    requires st.pos < |d| && IsSubseq(st.kept, d[..st.pos])
    ensures var r := ScanStep(d, act, st, fn); IsSubseq(r.kept, d[..r.pos])
  {
    var x := d[st.pos];
    assert d[..st.pos + 1] == d[..st.pos] + [x];
    if ScanStep(d, act, st, fn).kept == st.kept {
      SubseqSkip(st.kept, d[..st.pos], x);
    } else {
      SubseqKeep(st.kept, d[..st.pos], x);
    }
  }

  /** One scan step puts the current item in exactly one of kept, popped or moved. */
  lemma StepConserves(d: seq<QueueableItem>, act: set<QueueableItem>, st: Scan, fn: seq<QueueableItem> -> (bool, bool))
    requires st.pos < |d|
    ensures var r := ScanStep(d, act, st, fn);
      st.popped <= r.popped && st.moved <= r.moved
      && multiset(d[r.pos..]) + multiset(r.kept) + multiset(r.popped) + multiset(r.moved)
         == multiset(d[st.pos..]) + multiset(st.kept) + multiset(st.popped) + multiset(st.moved)
      && (forall i :: |st.popped| <= i < |r.popped| ==> r.popped[i] in act)
      && (forall i :: |st.moved| <= i < |r.moved| ==> r.moved[i] !in act)
  {
    var x := d[st.pos];
    assert d[st.pos..] == [x] + d[st.pos + 1..];
  }

  /**
   * One deque's scan keeps the rest in order and loses nothing: the kept
   * items are a subsequence of the scanned prefix, the popped and moved
   * items only grow, every item of the prefix is kept, popped or moved,
   * every popped item was active and every moved item inactive.
   */
  lemma {:induction false} ScanPartition(d: seq<QueueableItem>, act: set<QueueableItem>, st: Scan, fn: seq<QueueableItem> -> (bool, bool))
    requires st.pos <= |d| && IsSubseq(st.kept, d[..st.pos])
    ensures var r := ScanFrom(d, act, st, fn);
      IsSubseq(r.kept, d[..r.pos]) && st.popped <= r.popped && st.moved <= r.moved
      && multiset(d[r.pos..]) + multiset(r.kept) + multiset(r.popped) + multiset(r.moved)
         == multiset(d[st.pos..]) + multiset(st.kept) + multiset(st.popped) + multiset(st.moved)
      && (forall i :: |st.popped| <= i < |r.popped| ==> r.popped[i] in act)
      && (forall i :: |st.moved| <= i < |r.moved| ==> r.moved[i] !in act)
    decreases |d| - st.pos
  {
    if st.pos < |d| && st.cont {
      var next := ScanStep(d, act, st, fn);
      StepKeepsOrder(d, act, st, fn);
      StepConserves(d, act, st, fn);
      ScanPartition(d, act, next, fn);
    }
  }

  lemma FlattenAppend<T>(a: seq<seq<T>>, b: seq<seq<T>>)
    ensures Flatten(a + b) == Flatten(a) + Flatten(b)
  {
    if |b| > 0 {
      assert (a + b)[..|a + b| - 1] == a + b[..|b| - 1];
      FlattenAppend(a, b[..|b| - 1]);
    } else {
      assert a + b == a;
    }
  }

  /** One deque's scan, with the kept items rotated back to the front, keeps the deque's order. */
  lemma ScanKeepsOrder(d: seq<QueueableItem>, act: set<QueueableItem>, st: Scan, fn: seq<QueueableItem> -> (bool, bool))
    requires st.pos == 0 && st.kept == []
    ensures var r := ScanFrom(d, act, st, fn); IsSubseq(r.kept + d[r.pos..], d)
  {
    ScanPartition(d, act, st, fn);
    var r := ScanFrom(d, act, st, fn);
    SubseqAppend(r.kept, d[..r.pos], d[r.pos..]);
    assert d[..r.pos] + d[r.pos..] == d;
  }

  /**
   * getUntil keeps every deque's order: each new deque is a subsequence of
   * the old one.
   */
  lemma {:induction false} ScanQueuesKeepsOrder(qs: seq<seq<QueueableItem>>, act: set<QueueableItem>, acc: seq<seq<QueueableItem>>, cur: Scan,
                                                 fn: seq<QueueableItem> -> (bool, bool))
    requires |acc| <= |qs| && cur.pos == 0 && cur.kept == []
    requires forall i :: 0 <= i < |acc| ==> IsSubseq(acc[i], qs[i])
    ensures var r := ScanQueues(qs, act, acc, cur, fn);
      forall i :: 0 <= i < |qs| ==> IsSubseq(r.0[i], qs[i])
    decreases |qs| - |acc|
  {
    if |acc| == |qs| || !cur.cont {
      forall i | |acc| <= i < |qs|
        ensures IsSubseq((acc + qs[|acc|..])[i], qs[i])
      {
        assert (acc + qs[|acc|..])[i] == qs[i];
        SubseqRefl(qs[i]);
      }
    } else {
      var d := qs[|acc|];
      var st := ScanFrom(d, act, cur, fn);
      ScanKeepsOrder(d, act, cur, fn);
      ScanQueuesKeepsOrder(qs, act, acc + [st.kept + d[st.pos..]], Restart(st), fn);
    }
  }

  lemma FlattenSplit<T>(acc: seq<seq<T>>, x: seq<T>, rest: seq<seq<T>>)
    ensures Flatten(acc + [x] + rest) == Flatten(acc) + x + Flatten(rest)
  {
    FlattenAppend(acc + [x], rest);
    FlattenAppend(acc, [x]);
    assert [x][..0] == [x][1..];
  }

  /** Replacing one deque by one holding the same items, less the ones taken out. */
  lemma ReplaceDeque<T>(acc: seq<seq<T>>, d: seq<T>, rest: seq<seq<T>>, kept: seq<T>, tail: seq<T>,
                        k0: seq<T>, p: seq<T>, m: seq<T>, p0: seq<T>, m0: seq<T>)
    requires k0 == []
    requires multiset(tail) + multiset(kept) + multiset(p) + multiset(m)
          == multiset(d[0..]) + multiset(k0) + multiset(p0) + multiset(m0)
    ensures multiset(Flatten(acc + [kept + tail] + rest)) + multiset(p) + multiset(m)
         == multiset(Flatten(acc + [d] + rest)) + multiset(p0) + multiset(m0)
  {
    FlattenSplit(acc, kept + tail, rest);
    FlattenSplit(acc, d, rest);
    assert d[0..] == d;
    var a, r := multiset(Flatten(acc)), multiset(Flatten(rest));
    calc {
      multiset(Flatten(acc + [kept + tail] + rest)) + multiset(p) + multiset(m);
      a + multiset(kept) + multiset(tail) + r + multiset(p) + multiset(m);
      a + r + (multiset(tail) + multiset(kept) + multiset(p) + multiset(m));
      a + r + (multiset(d) + multiset(k0) + multiset(p0) + multiset(m0));
      a + multiset(d) + r + multiset(p0) + multiset(m0);
      multiset(Flatten(acc + [d] + rest)) + multiset(p0) + multiset(m0);
    }
  }

  /**
   * getUntil loses no item: every item of the deques ends up in a new
   * deque, among the returned items or among those moved to inactiveItems.
   */
  lemma {:induction false} ScanQueuesConserves(qs: seq<seq<QueueableItem>>, act: set<QueueableItem>, acc: seq<seq<QueueableItem>>, cur: Scan,
                                                fn: seq<QueueableItem> -> (bool, bool))
    requires |acc| <= |qs| && cur.pos == 0 && cur.kept == []
    ensures var r := ScanQueues(qs, act, acc, cur, fn);
      multiset(Flatten(r.0)) + multiset(r.1.popped) + multiset(r.1.moved)
      == multiset(Flatten(acc + qs[|acc|..])) + multiset(cur.popped) + multiset(cur.moved)
    decreases |qs| - |acc|
  {
    if |acc| < |qs| && cur.cont {
      var d := qs[|acc|];
      var st := ScanFrom(d, act, cur, fn);
      var nd := st.kept + d[st.pos..];
      var rest := qs[|acc| + 1..];
      assert ScanQueues(qs, act, acc, cur, fn) == ScanQueues(qs, act, acc + [nd], Restart(st), fn);
      ScanPartition(d, act, cur, fn);
      ScanQueuesConserves(qs, act, acc + [nd], Restart(st), fn);
      assert (acc + [nd]) + qs[|acc + [nd]|..] == acc + [nd] + rest;
      assert acc + qs[|acc|..] == acc + [d] + rest;
      ReplaceDeque(acc, d, rest, st.kept, d[st.pos..], cur.kept, st.popped, st.moved, cur.popped, cur.moved);
    } else {
      assert ScanQueues(qs, act, acc, cur, fn) == (acc + qs[|acc|..], cur);
    }
  }

  /**
   * getUntil's returned items were active and the items it moved to
   * inactiveItems were inactive, each list growing at its end.
   */
  lemma {:induction false} ScanQueuesSorts(qs: seq<seq<QueueableItem>>, act: set<QueueableItem>, acc: seq<seq<QueueableItem>>, cur: Scan,
                                            fn: seq<QueueableItem> -> (bool, bool))
    requires |acc| <= |qs| && cur.pos == 0 && cur.kept == []
    ensures var r := ScanQueues(qs, act, acc, cur, fn);
      cur.popped <= r.1.popped && cur.moved <= r.1.moved
      && (forall i :: |cur.popped| <= i < |r.1.popped| ==> r.1.popped[i] in act)
      && (forall i :: |cur.moved| <= i < |r.1.moved| ==> r.1.moved[i] !in act)
    decreases |qs| - |acc|
  {
    if |acc| < |qs| && cur.cont {
      var d := qs[|acc|];
      var st := ScanFrom(d, act, cur, fn);
      ScanPartition(d, act, cur, fn);
      ScanQueuesSorts(qs, act, acc + [st.kept + d[st.pos..]], Restart(st), fn);
    }
  }

  /** The items of a project among `s`. */
  function ProjectItems(s: seq<QueueableItem>, project: String): set<QueueableItem> {
    set x | x in s && x.project == project
  }

  lemma ProjectItemsAppend(a: seq<QueueableItem>, b: seq<QueueableItem>, project: String)
    ensures ProjectItems(a + b, project) == ProjectItems(a, project) + ProjectItems(b, project)
  {
  }

  lemma {:induction false} FirstActiveAt(s: seq<QueueableItem>, act: set<QueueableItem>, k: nat)
    requires k <= |s| && (k < |s| ==> s[k] in act)
    requires forall i :: 0 <= i < k ==> s[i] !in act
    ensures FirstActive(s, act) == k
    decreases k
  {
    if k > 0 {
      FirstActiveAt(s[1..], act, k - 1);
    }
  }

  // ================================================================ the queue

  /** The active items among the deques' items. */
  function ActiveSet(qs: seq<seq<QueueableItem>>): set<QueueableItem>
    reads Items(qs)
  {
    set x | x in Items(qs) && x.active
  }

  /** `act` tells exactly which items of the deques are active. */
  ghost predicate ActiveIs(qs: seq<seq<QueueableItem>>, act: set<QueueableItem>)
    reads Items(qs)
  {
    forall s, x :: s in qs && x in s ==> (x.active <==> x in act)
  }

  lemma ActiveSetIs(qs: seq<seq<QueueableItem>>)
    ensures ActiveIs(qs, ActiveSet(qs))
  {
    forall s, x | s in qs && x in s
      ensures x.active <==> x in ActiveSet(qs)
    {
      assert x in Items(qs);
    }
  }

  /** The deque after remove's loop: every occurrence of `cmd` popped, the rest rotated back in order. */
  method RemoveAll(d: seq<QueueableItem>, cmd: QueueableItem) returns (dq: seq<QueueableItem>, nremoved: nat)
    ensures dq == Without(d, cmd)
    ensures nremoved == multiset(d)[cmd]
  {
    dq := d;
    nremoved := 0;
    var n := |dq|;
    for i := 0 to n
      invariant dq == d[i..] + Without(d[..i], cmd)
      invariant nremoved == multiset(d[..i])[cmd]
    {
      DequeFront(d, i, Without(d[..i], cmd));
      WithoutStep(d, i, cmd);
      if dq[0] == cmd {
        nremoved := nremoved + 1;
        dq := dq[1..];
      } else {
        dq := dq[1..] + [dq[0]];
      }
    }
    assert d[..n] == d;
  }

  /** Extending the prefix of `d` by one item: it is dropped when it is `cmd`, kept and counted otherwise. */
  lemma WithoutStep(d: seq<QueueableItem>, i: nat, cmd: QueueableItem)
    requires i < |d|
    ensures Without(d[..i + 1], cmd) == if d[i] == cmd then Without(d[..i], cmd) else Without(d[..i], cmd) + [d[i]]
    ensures multiset(d[..i + 1])[cmd] == multiset(d[..i])[cmd] + if d[i] == cmd then 1 else 0
  {
    assert d[..i + 1] == d[..i] + [d[i]];
    assert d[..i + 1][..i] == d[..i];
  }

  /** _purgeQueueProject: drops a project's items from one deque, keeping the rest in order. */
  method PurgeQueueProject(queue: seq<QueueableItem>, project: String) returns (q: seq<QueueableItem>, nremoved: nat)
    ensures q == OtherProjects(queue, project)
    ensures nremoved + |q| == |queue|
  {
    q := queue;
    nremoved := 0;
    var n := |q|;
    for i := 0 to n
      invariant q == queue[i..] + OtherProjects(queue[..i], project)
      invariant nremoved + |OtherProjects(queue[..i], project)| == i
    {
      DequeFront(queue, i, OtherProjects(queue[..i], project));
      OtherProjectsStep(queue, i, project);
      if q[0].project == project {
        nremoved := nremoved + 1;
        q := q[1..];
      } else {
        q := q[1..] + [q[0]];
      }
    }
    assert queue[..n] == queue;
  }

  /** Extending the prefix of `queue` by one item: it is dropped when it belongs to the project, kept otherwise. */
  lemma OtherProjectsStep(queue: seq<QueueableItem>, i: nat, project: String)
    requires i < |queue|
    ensures OtherProjects(queue[..i + 1], project) ==
      if queue[i].project == project then OtherProjects(queue[..i], project)
      else OtherProjects(queue[..i], project) + [queue[i]]
  {
    assert queue[..i + 1][..i] == queue[..i];
  }

  /** deleteByProject's loop over the priority deques. */
  method PurgeAll(queues: seq<seq<QueueableItem>>, project: String) returns (qs: seq<seq<QueueableItem>>, nremoved: nat)
    ensures |qs| == |queues|
    ensures forall i :: 0 <= i < |qs| ==> qs[i] == OtherProjects(queues[i], project)
    ensures nremoved + |Flatten(qs)| == |Flatten(queues)|
  {
    qs := queues;
    nremoved := 0;
    for j := 0 to |queues|
      invariant |qs| == |queues|
      invariant forall i :: 0 <= i < j ==> qs[i] == OtherProjects(queues[i], project)
      invariant forall i :: j <= i < |qs| ==> qs[i] == queues[i]
      invariant nremoved + |Flatten(qs[..j])| == |Flatten(queues[..j])|
    {
      var q, n := PurgeQueueProject(qs[j], project);
      FlattenLength(qs, j);
      FlattenLength(queues, j);
      assert qs[j := q][..j] == qs[..j];
      qs := qs[j := q];
      FlattenLength(qs, j);
      nremoved := nremoved + n;
    }
    assert qs[..|qs|] == qs && queues[..|queues|] == queues;
  }

  /**
   * get's loop: pops inactive items off the deques in priority order until
   * an active one comes up.  Returns it, the index `j` of its deque, the
   * new deques and the inactive items popped, in order.
   */
  method FindActive(queues: seq<seq<QueueableItem>>, ghost act: set<QueueableItem>)
    returns (r: Option<QueueableItem>, ghost j: nat, qs: seq<seq<QueueableItem>>, moved: seq<QueueableItem>)
    requires ActiveIs(queues, act)
    ensures |qs| == |queues| && j <= |queues|
    ensures r.None? <==> j == |queues|
    ensures forall i :: 0 <= i < j ==> qs[i] == [] && FirstActive(queues[i], act) == |queues[i]|
    ensures forall i :: j < i < |queues| ==> qs[i] == queues[i]
    ensures r.None? ==> moved == Flatten(queues)
    ensures r.Some? ==>
      var d := queues[j];
      var k := FirstActive(d, act);
      k < |d| && r.value == d[k] && qs[j] == d[k + 1..] && moved == Flatten(queues[..j]) + d[..k]
  {
    qs := queues;
    moved := [];
    var n := 0;
    while n < |queues|
      invariant n <= |queues| && |qs| == |queues|
      invariant forall i :: 0 <= i < n ==> qs[i] == [] && FirstActive(queues[i], act) == |queues[i]|
      invariant forall i :: n <= i < |queues| ==> qs[i] == queues[i]
      invariant moved == Flatten(queues[..n])
    {
      var dq := qs[n];
      ghost var k := 0;
      while |dq| > 0
        invariant k <= |queues[n]| && dq == queues[n][k..] && |qs| == |queues|
        invariant forall i :: n < i < |queues| ==> qs[i] == queues[i]
        invariant forall i :: 0 <= i < n ==> qs[i] == []
        invariant qs[n] == dq
        invariant forall i :: 0 <= i < k ==> queues[n][i] !in act
        invariant moved == Flatten(queues[..n]) + queues[n][..k]
        decreases |dq|
      {
        var item := dq[0];
        assert item == queues[n][k];
        assert item.active <==> item in act by {
          assert queues[n] in queues && item in queues[n];
        }
        dq := dq[1..];
        qs := qs[n := dq];
        if item.active {
          FirstActiveAt(queues[n], act, k);
          return Some(item), n, qs, moved;
        }
        moved := moved + [item];
        assert queues[n][..k + 1] == queues[n][..k] + [item];
        k := k + 1;
      }
      assert queues[n][..k] == queues[n];
      FirstActiveAt(queues[n], act, k);
      assert queues[..n + 1][..n] == queues[..n];
      n := n + 1;
    }
    assert queues[..n] == queues;
    return None, n, qs, moved;
  }

  /**
   * One deque of getUntil: the for loop with its rotations, then the
   * final rotate(nback) that brings the kept items back to the front.
   */
  method ScanDeque(dq0: seq<QueueableItem>, ghost act: set<QueueableItem>, st0: Scan, fn: seq<QueueableItem> -> (bool, bool))
    returns (st: Scan, dq: seq<QueueableItem>)
    requires forall k :: 0 <= k < |dq0| ==> (dq0[k].active <==> dq0[k] in act)
    requires st0.pos == 0 && st0.kept == [] && st0.cont
    ensures st == ScanFrom(dq0, act, st0, fn)
    ensures dq == st.kept + dq0[st.pos..]
  {
    dq := dq0;
    st := st0;
    var n := |dq|;
    var nback := 0;
    for i := 0 to n
      invariant st.pos == i && st.cont && dq == dq0[i..] + st.kept && nback == |st.kept|
      invariant ScanFrom(dq0, act, st0, fn) == ScanFrom(dq0, act, st, fn)
    {
      DequeFront(dq0, i, st.kept);
      var x := dq[0];
      ghost var next := ScanStep(dq0, act, st, fn);
      assert ScanFrom(dq0, act, st, fn) == ScanFrom(dq0, act, next, fn);
      if x.active {
        var seen := st.seen + [x];
        var answer := fn(seen);
        if answer.1 {
          st := Scan(i + 1, st.kept, st.popped + [x], st.moved, st.moves + [Move(x, None)], seen, answer.0);
          dq := dq[1..];
        } else {
          st := Scan(i + 1, st.kept + [x], st.popped, st.moved, st.moves, seen, answer.0);
          dq := dq[1..] + [dq[0]];
          nback := nback + 1;
        }
        assert st == next;
        if !answer.0 {
          break;
        }
      } else {
        st := st.(pos := i + 1, moved := st.moved + [x], moves := st.moves + [Move(x, Some(Inactive))]);
        dq := dq[1..];
        assert st == next;
      }
    }
    RotateBack(dq0[st.pos..], st.kept);
    dq := dq[|dq| - nback..] + dq[..|dq| - nback];
  }

  /**
   * The deque `s[i..] + b` during the scan: its front is `s[i]`; popping it
   * leaves `s[i + 1..] + b`, rotating it to the back gives `s[i + 1..] + (b + [s[i]])`.
   */
  lemma DequeFront<T>(s: seq<T>, i: nat, b: seq<T>)
    requires i < |s|
    ensures (s[i..] + b)[0] == s[i]
    ensures (s[i..] + b)[1..] == s[i + 1..] + b
    ensures (s[i..] + b)[1..] + [(s[i..] + b)[0]] == s[i + 1..] + (b + [s[i]])
  {
    assert s[i..] == [s[i]] + s[i + 1..];
  }

  /** rotate(nback) on a deque whose last nback items are `b` brings them back in front. */
  lemma RotateBack<T>(a: seq<T>, b: seq<T>)
    ensures (a + b)[|a + b| - |b|..] + (a + b)[..|a + b| - |b|] == b + a
  {
    assert (a + b)[|a|..] == b;
    assert (a + b)[..|a|] == a;
  }

  /** getUntil's outer loop, over the deques in priority order. */
  method ScanAll(queues: seq<seq<QueueableItem>>, ghost act: set<QueueableItem>, fn: seq<QueueableItem> -> (bool, bool))
    returns (qs: seq<seq<QueueableItem>>, cur: Scan)
    requires ActiveIs(queues, act)
    ensures (qs, cur) == ScanQueues(queues, act, [], ScanInit, fn)
  {
    qs := queues;
    cur := ScanInit;
    var j := 0;
    assert qs[..0] == qs[|qs|..];
    while j < |queues|
      invariant j <= |queues| && |qs| == |queues| && cur.pos == 0 && cur.kept == []
      invariant qs[j..] == queues[j..]
      invariant ActiveIs(queues, act)
      invariant ScanQueues(queues, act, [], ScanInit, fn) == ScanQueues(queues, act, qs[..j], cur, fn)
      decreases |queues| - j
    {
      if !cur.cont {
        break;
      }
      assert qs[j] == queues[j] by {
        assert qs[j..][0] == queues[j..][0];
      }
      assert forall k :: 0 <= k < |qs[j]| ==> (qs[j][k].active <==> qs[j][k] in act) by {
        assert queues[j] in queues;
      }
      var st, dq := ScanDeque(qs[j], act, cur, fn);
      assert ScanQueues(queues, act, qs[..j], cur, fn) == ScanQueues(queues, act, qs[..j] + [dq], Restart(st), fn);
      assert qs[..j] + [dq] == qs[j := dq][..j + 1];
      assert qs[j := dq][j + 1..] == qs[j + 1..];
      qs := qs[j := dq];
      cur := Restart(st);
      j := j + 1;
    }
    assert qs[..j] + queues[j..] == qs;
  }

  class CmdQueue {
    /** The priority deques, highest priority first. */
    var queues: seq<seq<QueueableItem>>
    /** Items popped from the priority deques while inactive. */
    var inactiveItems: seq<QueueableItem>
    /** QueueableItem.queue for each item that has one. */
    var location: map<QueueableItem, Loc>

    ghost predicate Valid()
      reads this
    {
      |queues| == NumDeques
    }

    constructor ()
      ensures Valid() && inactiveItems == [] && location == map[]
      ensures forall i :: 0 <= i < NumDeques ==> queues[i] == []
    {
      queues := seq(NumDeques, _ => []);
      inactiveItems := [];
      location := map[];
    }

    /** The contents of the deque a back-pointer refers to. */
    function LocContents(l: Loc): seq<QueueableItem>
      reads this
    {
      match l
      case InDeque(i) => if i < |queues| then queues[i] else []
      case Inactive => inactiveItems
    }

    /** getSize: the number of items in the priority deques, inactive items not counted. */
    method GetSize() returns (size: nat)
      requires Valid()
      ensures size == |Flatten(queues)|
    {
      size := 0;
      for j := 0 to |queues|
        invariant size == |Flatten(queues[..j])|
      {
        FlattenLength(queues, j);
        size := size + |queues[j]|;
      }
      assert queues[..|queues|] == queues;
    }

    /** add: an active item goes to the back of its priority deque, an inactive one to inactiveItems. */
    method Add(command: QueueableItem) returns (ret: bool)
      requires Valid()
      modifies this
      ensures Valid() && ret
      ensures command.active ==>
        var p := DequeIndex(command.priority);
        queues == old(queues)[p := old(queues)[p] + [command]]
        && inactiveItems == old(inactiveItems) && location == old(location)[command := InDeque(p)]
      ensures !command.active ==>
        queues == old(queues) && inactiveItems == old(inactiveItems) + [command]
        && location == old(location)[command := Inactive]
    {
      if command.active {
        var p := DequeIndex(command.priority);
        queues := queues[p := queues[p] + [command]];
        location := location[command := InDeque(p)];
      } else {
        inactiveItems := inactiveItems + [command];
        location := location[command := Inactive];
      }
      return true;
    }

    /**
     * remove: every occurrence of the item leaves the deque its back-pointer
     * names, the others keep their order.  The deque must equal (as deques
     * compare, by contents) one of the priority deques.
     */
    method Remove(cmd: QueueableItem) returns (r: Result<(), QueueError>)
      requires Valid()
      modifies this
      ensures Valid()
      ensures r.Err? <==> cmd !in old(location) || old(LocContents(location[cmd])) !in old(queues)
      ensures r.Err? ==> r.error == WrongQueue && queues == old(queues) && inactiveItems == old(inactiveItems) && location == old(location)
      ensures r.Ok? ==>
        var d := old(LocContents(location[cmd]));
        match old(location[cmd])
        case InDeque(i) => queues == old(queues)[i := Without(d, cmd)] && inactiveItems == old(inactiveItems)
        case Inactive => queues == old(queues) && inactiveItems == Without(d, cmd)
      ensures r.Ok? ==> location == if cmd in old(LocContents(location[cmd])) then old(location) - {cmd} else old(location)
    {
      if cmd !in location || LocContents(location[cmd]) !in queues {
        return Err(WrongQueue);
      }
      var loc := location[cmd];
      var dq, nremoved := RemoveAll(LocContents(loc), cmd);
      match loc {
        case InDeque(i) => queues := queues[i := dq];
        case Inactive => inactiveItems := dq;
      }
      if nremoved > 0 {
        location := location - {cmd};
      }
      return Ok(());
    }

    /**
     * get: the front active item of the highest-priority deque holding one.
     * Inactive items met on the way move to inactiveItems.  The returned
     * item keeps its (now stale) back-pointer.
     */
    method Get() returns (r: Option<QueueableItem>, ghost j: nat)
      requires Valid()
      modifies this
      ensures Valid() && j <= NumDeques
      ensures r.None? <==> j == NumDeques
      ensures forall i :: 0 <= i < j ==> queues[i] == [] && FirstActive(old(queues)[i], old(ActiveSet(queues))) == |old(queues)[i]|
      ensures forall i :: j < i < NumDeques ==> queues[i] == old(queues)[i]
      ensures r.None? ==> inactiveItems == old(inactiveItems) + Flatten(old(queues))
      ensures r.Some? ==>
        var d := old(queues)[j];
        var k := FirstActive(d, old(ActiveSet(queues)));
        k < |d| && r.value == d[k] && r.value.active && queues[j] == d[k + 1..]
        && inactiveItems == old(inactiveItems) + Flatten(old(queues)[..j]) + d[..k]
      ensures location == Apply(old(location), ToInactive(inactiveItems[|old(inactiveItems)|..]))
    {
      ghost var act := ActiveSet(queues);
      ActiveSetIs(queues);
      var qs, moved;
      r, j, qs, moved := FindActive(queues, act);
      if r.Some? {
        assert r.value in queues[j];
        assert r.value.active;
      }
      queues := qs;
      inactiveItems := inactiveItems + moved;
      location := Apply(location, ToInactive(moved));
      assert inactiveItems[|old(inactiveItems)|..] == moved;
    }

    /**
     * getUntil: scans the deques in priority order.  For each active item
     * `fn` answers (cont, doPop): popped items are returned in scan order,
     * the others are rotated to the back and, once the deque is done,
     * rotated back to the front; inactive items move to inactiveItems.  The
     * scan stops after the deque in which `fn` first said stop.
     */
    method GetUntil(fn: seq<QueueableItem> -> (bool, bool)) returns (ret: seq<QueueableItem>)
      requires Valid()
      modifies this
      ensures Valid()
      ensures var r := ScanQueues(old(queues), old(ActiveSet(queues)), [], ScanInit, fn);
        queues == r.0 && ret == r.1.popped && inactiveItems == old(inactiveItems) + r.1.moved
        && location == Apply(old(location), r.1.moves)
    {
      ghost var act := ActiveSet(queues);
      ActiveSetIs(queues);
      var qs, cur := ScanAll(queues, act, fn);
      ret := cur.popped;
      queues := qs;
      inactiveItems := inactiveItems + cur.moved;
      location := Apply(location, cur.moves);
    }

    /** list: the active items of the priority deques, in priority order. */
    method List() returns (ret: seq<QueueableItem>)
      requires Valid()
      ensures ret == ActiveOnly(Flatten(queues))
    {
      ret := [];
      for j := 0 to |queues|
        invariant ret == ActiveOnly(Flatten(queues[..j]))
      {
        var dq := queues[j];
        var part := [];
        for k := 0 to |dq|
          invariant part == ActiveOnly(dq[..k])
        {
          assert dq[..k + 1][..k] == dq[..k];
          if dq[k].active {
            part := part + [dq[k]];
          }
        }
        assert dq[..|dq|] == dq;
        ActiveOnlyAppend(Flatten(queues[..j]), dq);
        assert queues[..j + 1][..j] == queues[..j];
        ret := ret + part;
      }
      assert queues[..|queues|] == queues;
    }

    /** deleteByProject: removes a project's items from every deque and from inactiveItems, and counts them. */
    method DeleteByProject(project: String) returns (nremoved: nat)
      requires Valid()
      modifies this
      ensures Valid()
      ensures forall i :: 0 <= i < NumDeques ==> queues[i] == OtherProjects(old(queues)[i], project)
      ensures inactiveItems == OtherProjects(old(inactiveItems), project)
      ensures nremoved + |Flatten(queues)| + |inactiveItems| == |Flatten(old(queues))| + |old(inactiveItems)|
      ensures location == old(location) - ProjectItems(Flatten(old(queues)) + old(inactiveItems), project)
    {
      var qs, n := PurgeAll(queues, project);
      var q, m := PurgeQueueProject(inactiveItems, project);
      location := location - ProjectItems(Flatten(queues) + inactiveItems, project);
      queues := qs;
      inactiveItems := q;
      nremoved := n + m;
    }

    /**
     * _activateCommand: an item whose back-pointer names a deque equal to
     * inactiveItems leaves inactiveItems (its first occurrence; ValueError
     * when absent) and is added again.
     */
    method ActivateCommand(command: QueueableItem) returns (r: Result<(), QueueError>)
      requires Valid()
      modifies this
      ensures Valid()
      ensures !(command in old(location) && old(LocContents(location[command])) == old(inactiveItems)) ==>
        r.Ok? && queues == old(queues) && inactiveItems == old(inactiveItems) && location == old(location)
      ensures command in old(location) && old(LocContents(location[command])) == old(inactiveItems) && command !in old(inactiveItems) ==>
        r == Err(NotInInactive) && queues == old(queues) && inactiveItems == old(inactiveItems) && location == old(location)
      ensures command in old(location) && old(LocContents(location[command])) == old(inactiveItems) && command in old(inactiveItems) ==>
        r.Ok? &&
        var rest := RemoveFirst(old(inactiveItems), command);
        if command.active then
          var p := DequeIndex(command.priority);
          queues == old(queues)[p := old(queues)[p] + [command]] && inactiveItems == rest
          && location == old(location)[command := InDeque(p)]
        else
          queues == old(queues) && inactiveItems == rest + [command] && location == old(location)[command := Inactive]
    {
      if command in location && LocContents(location[command]) == inactiveItems {
        if command !in inactiveItems {
          return Err(NotInInactive);
        }
        inactiveItems := RemoveFirst(inactiveItems, command);
        var _ := Add(command);
      }
      return Ok(());
    }

    /**
     * QueueableItem.activate: the item becomes active and, when its
     * back-pointer names a deque of this queue, _activateCommand runs.
     */
    method Activate(item: QueueableItem) returns (r: Result<(), QueueError>)
      requires Valid()
      modifies this, item
      ensures Valid() && item.active
      ensures item !in old(location) ==>
        r.Ok? && queues == old(queues) && inactiveItems == old(inactiveItems) && location == old(location)
      ensures item in old(location) && old(LocContents(location[item])) == old(inactiveItems) && item in old(inactiveItems) ==>
        r.Ok? && location == old(location)[item := InDeque(DequeIndex(item.priority))]
        && inactiveItems == RemoveFirst(old(inactiveItems), item)
        && queues == old(queues)[DequeIndex(item.priority) := old(queues)[DequeIndex(item.priority)] + [item]]
      ensures item in old(location) && old(LocContents(location[item])) == old(inactiveItems) && item !in old(inactiveItems) ==>
        r == Err(NotInInactive) && queues == old(queues) && inactiveItems == old(inactiveItems) && location == old(location)
      ensures item in old(location) && old(LocContents(location[item])) != old(inactiveItems) ==>
        r.Ok? && queues == old(queues) && inactiveItems == old(inactiveItems) && location == old(location)
      ensures item.priority == old(item.priority)
    {
      item.active := true;
      if item in location {
        r := ActivateCommand(item);
      } else {
        r := Ok(());
      }
    }
  }
}
