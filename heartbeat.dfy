/**
 * The server's list of commands running on workers, watched through
 * heartbeat signals (cpc/server/state/heartbeat.py). Each entry records
 * which worker owns the command, where it runs and when it was last heard
 * from; a command not heard from for two heartbeat intervals is dropped
 * and handed back to be queued again.
 *
 * Clock readings are parameters (`now`), in seconds, as reals.
 */
module Heartbeats {
  import opened Wrappers
  import opened Text
  import opened Commands
  import opened Enumerations

  /** The key of the running-command dictionary: a command's id, which may be unset. */
  type CmdKey = Option<String>

  /** What the server answers for one heartbeat item. */
  datatype ItemState = StateOK | StateNotFound | StateWrongWorker

  /** One item of a heartbeat signal: a command the worker says it is running. */
  datatype HeartbeatItem = HeartbeatItem(cmdId: String, serverName: String, runDir: String)

  /** The heartbeat data kept for one running command. */
  datatype RunningCommand = RunningCommand(
    cmd: Command, workerId: Option<String>, workerDir: Option<String>, runDir: Option<String>,
    lastHeard: real, workerServer: String, heartbeatInterval: int)

  /** The error the list raises. */
  datatype ListError = DuplicateCommandId | CommandNotFound(id: CmdKey)

  // ---------------------------------------------------------------- adding

  /** The ids of a list of commands, in order. */
  function IdsOf(cmds: seq<Command>): (r: seq<CmdKey>)
    reads cmds
    ensures |r| == |cmds|
    ensures forall j :: 0 <= j < |cmds| ==> r[j] == cmds[j].id
  {
    if |cmds| == 0 then [] else IdsOf(cmds[..|cmds| - 1]) + [cmds[|cmds| - 1].id]
  }

  /**
   * Where `add` stops: the first position whose id is already running or
   * occurs earlier in the list, or the end of the list.
   */
  function FirstRepeat(ids: seq<CmdKey>, keys: set<CmdKey>): (n: nat)
    ensures n <= |ids|
    ensures forall j :: 0 <= j < n ==> ids[j] !in keys && ids[j] !in ids[..j]
    ensures n < |ids| ==> ids[n] in keys || ids[n] in ids[..n]
  {
    if |ids| == 0 then 0
    else
      var init := ids[..|ids| - 1];
      var n0 := FirstRepeat(init, keys);
      assert forall j :: 0 <= j < |init| ==> init[j] == ids[j] && init[..j] == ids[..j];
      if n0 < |init| then n0
      else if ids[|init|] in keys || ids[|init|] in init then |init|
      else |ids|
  }

  /** A position before the stop whose id is neither running nor repeated is not the stop. */
  lemma FirstRepeatPast(ids: seq<CmdKey>, keys: set<CmdKey>, i: nat)
    requires i < |ids| && i <= FirstRepeat(ids, keys)
    requires ids[i] !in keys && ids[i] !in ids[..i]
    ensures i < FirstRepeat(ids, keys)
  {
  }

  /** A fresh entry: no worker yet, heard from now. */
  function NewEntry(cmd: Command, workerServer: String, heartbeatInterval: int, now: real): RunningCommand {
    RunningCommand(cmd, None, None, None, now, workerServer, heartbeatInterval)
  }

  // ---------------------------------------------------------------- ping

  /**
   * The answer to an item given the entries before the signal: unknown
   * command, command owned by another worker, or OK.
   */
  function Classify(m: map<CmdKey, RunningCommand>, workerId: String, item: HeartbeatItem): ItemState {
    var key := Some(item.cmdId);
    if key !in m then StateNotFound
    else if m[key].workerId.Some? && m[key].workerId.value != workerId then StateWrongWorker
    else StateOK
  }

  /**
   * One iteration of `ping`: the item's answer and the entries after it.
   * An OK item binds the worker if none was bound, and records the
   * worker's directory, the run directory and the time of the signal.
   */
  function PingItem(m: map<CmdKey, RunningCommand>, workerId: String, workerDir: String,
                    item: HeartbeatItem, now: real): (r: (ItemState, map<CmdKey, RunningCommand>))
    ensures r.0 == Classify(m, workerId, item)
    ensures r.1.Keys == m.Keys
    ensures r.0 != StateOK ==> r.1 == m
    ensures r.0 == StateOK ==> r.1 == m[Some(item.cmdId) := m[Some(item.cmdId)].(
      workerId := Some(workerId), workerDir := Some(workerDir), runDir := Some(item.runDir), lastHeard := now)]
  {
    var key := Some(item.cmdId);
    if key !in m then (StateNotFound, m)
    else
      var cwid := m[key].workerId;
      if cwid.Some? && cwid.value != workerId then (StateWrongWorker, m)
      else
        var rc := m[key];
        var bound := if cwid.None? then rc.(workerId := Some(workerId)) else rc;
        var moved := bound.(workerDir := Some(workerDir), runDir := Some(item.runDir));
        (StateOK, m[key := moved.(lastHeard := now)])
  }

  /** The answers and the entries after `ping` has handled every item in order. */
  function PingRun(m: map<CmdKey, RunningCommand>, workerId: String, workerDir: String,
                   items: seq<HeartbeatItem>, now: real): (r: (map<CmdKey, RunningCommand>, seq<ItemState>))
    ensures r.0.Keys == m.Keys && |r.1| == |items|
  {
    if |items| == 0 then (m, [])
    else
      var before := PingRun(m, workerId, workerDir, items[..|items| - 1], now);
      var step := PingItem(before.0, workerId, workerDir, items[|items| - 1], now);
      (step.1, before.1 + [step.0])
  }

  /** Every command in `m` that has a worker keeps it in `m2`, and one without either gets this worker or none. */
  ghost predicate Owners(m: map<CmdKey, RunningCommand>, m2: map<CmdKey, RunningCommand>, workerId: String) {
    && m2.Keys == m.Keys
    && (forall k :: k in m && m[k].workerId.Some? ==> m2[k].workerId == m[k].workerId)
    && (forall k :: k in m && m[k].workerId.None? ==> m2[k].workerId in {None, Some(workerId)})
  }

  /**
   * `ping` keeps the set of running commands, never rebinds a command that
   * has a worker, and answers each item as the entries before the signal
   * decide.
   */
  lemma {:induction false} PingRunAnswers(m: map<CmdKey, RunningCommand>, workerId: String, workerDir: String,
                                          items: seq<HeartbeatItem>, now: real)
    ensures Owners(m, PingRun(m, workerId, workerDir, items, now).0, workerId)
    ensures forall i :: 0 <= i < |items| ==>
      PingRun(m, workerId, workerDir, items, now).1[i] == Classify(m, workerId, items[i])
  {
    if |items| > 0 {
      var init := items[..|items| - 1];
      PingRunAnswers(m, workerId, workerDir, init, now);
      var before := PingRun(m, workerId, workerDir, init, now);
      var last := items[|items| - 1];
      assert Classify(before.0, workerId, last) == Classify(m, workerId, last);
      forall i | 0 <= i < |items|
        ensures PingRun(m, workerId, workerDir, items, now).1[i] == Classify(m, workerId, items[i])
      {
        if i < |init| {
          assert items[i] == init[i];
        }
      }
    }
  }

  /** The item names a running command that has no worker or has this one. */
  predicate MayOwn(m: map<CmdKey, RunningCommand>, workerId: String, item: HeartbeatItem) {
    var key := Some(item.cmdId);
    key in m && (m[key].workerId.None? || m[key].workerId == Some(workerId))
  }

  /**
   * An item is answered OK exactly when it is about a command this worker
   * may own, so `ping` answers True exactly when every item is.
   */
  lemma PingOk(m: map<CmdKey, RunningCommand>, workerId: String, workerDir: String,
               items: seq<HeartbeatItem>, now: real)
    ensures forall i :: 0 <= i < |items| ==>
      (PingRun(m, workerId, workerDir, items, now).1[i] == StateOK <==> MayOwn(m, workerId, items[i]))
  {
    PingRunAnswers(m, workerId, workerDir, items, now);
    var st := PingRun(m, workerId, workerDir, items, now).1;
    forall i | 0 <= i < |items| ensures st[i] == StateOK <==> MayOwn(m, workerId, items[i]) {
      assert st[i] == Classify(m, workerId, items[i]);
    }
  }

  /**
   * After `ping`, a command an OK item named is owned by this worker and was
   * heard from now; a command no item named is as it was.
   */
  lemma {:induction false} PingRunEffects(m: map<CmdKey, RunningCommand>, workerId: String, workerDir: String,
                                          items: seq<HeartbeatItem>, now: real)
    ensures var r := PingRun(m, workerId, workerDir, items, now);
      forall i :: 0 <= i < |items| && r.1[i] == StateOK ==>
        var k := Some(items[i].cmdId);
        k in r.0 && r.0[k].workerId == Some(workerId) && r.0[k].workerDir == Some(workerDir) && r.0[k].lastHeard == now
    ensures var r := PingRun(m, workerId, workerDir, items, now);
      forall k :: k in m && (forall i :: 0 <= i < |items| ==> Some(items[i].cmdId) != k) ==> r.0[k] == m[k]
  {
    if |items| > 0 {
      var init := items[..|items| - 1];
      PingRunEffects(m, workerId, workerDir, init, now);
      var r := PingRun(m, workerId, workerDir, items, now);
      var before := PingRun(m, workerId, workerDir, init, now);
      forall i | 0 <= i < |items| && r.1[i] == StateOK
        ensures var k := Some(items[i].cmdId);
          k in r.0 && r.0[k].workerId == Some(workerId) && r.0[k].workerDir == Some(workerDir) && r.0[k].lastHeard == now
      {
        if i < |init| {
          assert items[i] == init[i];
          assert before.1[i] == r.1[i];
        }
      }
      forall k | k in m && (forall i :: 0 <= i < |items| ==> Some(items[i].cmdId) != k)
        ensures r.0[k] == m[k]
      {
        forall i | 0 <= i < |init| ensures Some(init[i].cmdId) != k {
          assert init[i] == items[i];
        }
      }
    }
  }

  // ---------------------------------------------------------------- expiry

  /** When an entry's heartbeat runs out: two intervals after it was last heard from. */
  function Expiry(rc: RunningCommand): real {
    rc.lastHeard + 2.0 * (rc.heartbeatInterval as real)
  }

  predicate Expired(rc: RunningCommand, now: real) {
    now > Expiry(rc)
  }

  /** The entries that have not run out. */
  function Live(m: map<CmdKey, RunningCommand>, now: real): (r: map<CmdKey, RunningCommand>)
    ensures forall k :: k in r <==> k in m && !Expired(m[k], now)
    ensures forall k :: k in r ==> r[k] == m[k]
  {
    map k | k in m && !Expired(m[k], now) :: m[k]
  }

  /**
   * One iteration of the expiry scan as written: a live entry that runs out
   * before the current estimate moves the estimate to one second after its
   * expiry.
   */
  function NextFirstExpiry(fe: real, rc: RunningCommand, now: real): real {
    if Expired(rc, now) then fe
    else if Expiry(rc) < fe then Expiry(rc) + 1.0
    else fe
  }

  /** The first-expiry estimate after scanning `rcs` in order, starting from `fe`. */
  function FirstExpiry(fe: real, rcs: seq<RunningCommand>, now: real): real {
    if |rcs| == 0 then fe
    else NextFirstExpiry(FirstExpiry(fe, rcs[..|rcs| - 1], now), rcs[|rcs| - 1], now)
  }

  /**
   * The estimate as written is not the earliest expiry: with the bound at
   * 10 s, entries running out at 9.5 s and 10.2 s give 11.2 s in one
   * dictionary order and 10.5 s in the other, and both exceed the bound.
   */
  lemma FirstExpiryAsWritten(c: Command)
    ensures var a := RunningCommand(c, None, None, None, 7.5, "w", 1);
            var b := RunningCommand(c, None, None, None, 8.2, "w", 1);
            FirstExpiry(10.0, [a, b], 0.0) == 11.2 && FirstExpiry(10.0, [b, a], 0.0) == 10.5
  {
    var a := RunningCommand(c, None, None, None, 7.5, "w", 1);
    var b := RunningCommand(c, None, None, None, 8.2, "w", 1);
    assert [a, b][..1] == [a] && [b, a][..1] == [b];
    assert [a][..0] == [] && [b][..0] == [];
    assert Expiry(a) == 9.5 && Expiry(b) == 10.2;
    assert FirstExpiry(10.0, [a], 0.0) == 10.5;
    assert FirstExpiry(10.0, [b], 0.0) == 10.0;
  }

  /** One iteration of the corrected scan: the estimate only ever moves earlier. */
  function NextFirstExpiryCorrected(fe: real, rc: RunningCommand, now: real): real {
    if Expired(rc, now) then fe
    else if Expiry(rc) + 1.0 < fe then Expiry(rc) + 1.0
    else fe
  }

  /** The corrected estimate after scanning `rcs` in order, starting from `fe`. */
  function FirstExpiryCorrected(fe: real, rcs: seq<RunningCommand>, now: real): real {
    if |rcs| == 0 then fe
    else NextFirstExpiryCorrected(FirstExpiryCorrected(fe, rcs[..|rcs| - 1], now), rcs[|rcs| - 1], now)
  }

  /**
   * The corrected estimate is the least of the bound and one second past
   * each live entry's expiry, whatever the order of the entries.
   */
  lemma {:induction false} FirstExpiryCorrectedIsLeast(fe: real, rcs: seq<RunningCommand>, now: real)
    ensures FirstExpiryCorrected(fe, rcs, now) <= fe
    ensures forall i :: 0 <= i < |rcs| && !Expired(rcs[i], now) ==>
      FirstExpiryCorrected(fe, rcs, now) <= Expiry(rcs[i]) + 1.0
    ensures FirstExpiryCorrected(fe, rcs, now) == fe ||
      exists i :: 0 <= i < |rcs| && !Expired(rcs[i], now) && FirstExpiryCorrected(fe, rcs, now) == Expiry(rcs[i]) + 1.0
  {
    if |rcs| > 0 {
      var init := rcs[..|rcs| - 1];
      FirstExpiryCorrectedIsLeast(fe, init, now);
      var r0 := FirstExpiryCorrected(fe, init, now);
      forall i | 0 <= i < |rcs| && !Expired(rcs[i], now)
        ensures FirstExpiryCorrected(fe, rcs, now) <= Expiry(rcs[i]) + 1.0
      {
        if i < |init| {
          assert rcs[i] == init[i];
        }
      }
      if FirstExpiryCorrected(fe, rcs, now) != fe && FirstExpiryCorrected(fe, rcs, now) == r0 {
        var i :| 0 <= i < |init| && !Expired(init[i], now) && r0 == Expiry(init[i]) + 1.0;
        assert rcs[i] == init[i];
      }
    }
  }

  // ---------------------------------------------------------------- the list

  /** The entries of `m` in the order `order` lists their keys. */
  function EntriesIn(m: map<CmdKey, RunningCommand>, order: seq<CmdKey>): (r: seq<RunningCommand>)
    requires forall i :: 0 <= i < |order| ==> order[i] in m
    ensures |r| == |order| && forall i :: 0 <= i < |order| ==> r[i] == m[order[i]]
  {
    if |order| == 0 then [] else EntriesIn(m, order[..|order| - 1]) + [m[order[|order| - 1]]]
  }

  /** The estimate once the keys outside `keys` are visited, in the order `visited`. */
  ghost predicate VisitInv(m: map<CmdKey, RunningCommand>, keys: set<CmdKey>, visited: seq<CmdKey>,
                           fe0: real, fe: real, now: real) {
    && keys <= m.Keys
    && Enumerates(visited, m.Keys - keys)
    && fe == FirstExpiryCorrected(fe0, EntriesIn(m, visited), now)
  }

  /** The expired entries among those visited, listed for deletion with their commands. */
  ghost predicate DeleteInv(m: map<CmdKey, RunningCommand>, keys: set<CmdKey>, del: seq<CmdKey>,
                            dead: seq<Command>, now: real) {
    && keys <= m.Keys
    && Enumerates(del, (m.Keys - keys) - Live(m, now).Keys)
    && |dead| == |del| && (forall i :: 0 <= i < |dead| ==> del[i] in m && dead[i] == m[del[i]].cmd)
  }

  lemma EntriesInSnoc(m: map<CmdKey, RunningCommand>, visited: seq<CmdKey>, k: CmdKey)
    requires k in m && forall i :: 0 <= i < |visited| ==> visited[i] in m
    ensures EntriesIn(m, visited + [k]) == EntriesIn(m, visited) + [m[k]]
  {
    assert (visited + [k])[..|visited|] == visited;
  }

  lemma FirstExpirySnoc(fe0: real, seen: seq<RunningCommand>, rc: RunningCommand, now: real)
    ensures FirstExpiryCorrected(fe0, seen + [rc], now) == NextFirstExpiryCorrected(FirstExpiryCorrected(fe0, seen, now), rc, now)
  {
    assert (seen + [rc])[..|seen|] == seen;
  }

  lemma VisitStep(m: map<CmdKey, RunningCommand>, keys: set<CmdKey>, k: CmdKey, visited: seq<CmdKey>,
                  fe0: real, fe: real, now: real)
    requires k in keys && VisitInv(m, keys, visited, fe0, fe, now)
    ensures VisitInv(m, keys - {k}, visited + [k], fe0, NextFirstExpiryCorrected(fe, m[k], now), now)
  {
    assert m.Keys - (keys - {k}) == (m.Keys - keys) + {k};
    EnumeratesAppend(visited, m.Keys - keys, k);
    EntriesInSnoc(m, visited, k);
    FirstExpirySnoc(fe0, EntriesIn(m, visited), m[k], now);
  }

  lemma DeleteStep(m: map<CmdKey, RunningCommand>, keys: set<CmdKey>, k: CmdKey, del: seq<CmdKey>,
                   dead: seq<Command>, now: real)
    requires k in keys && DeleteInv(m, keys, del, dead, now)
    ensures Expired(m[k], now) ==> DeleteInv(m, keys - {k}, del + [k], dead + [m[k].cmd], now)
    ensures !Expired(m[k], now) ==> DeleteInv(m, keys - {k}, del, dead, now)
  {
    var done := (m.Keys - keys) - Live(m, now).Keys;
    if Expired(m[k], now) {
      assert (m.Keys - (keys - {k})) - Live(m, now).Keys == done + {k};
      EnumeratesAppend(del, done, k);
      var del2, dead2 := del + [k], dead + [m[k].cmd];
      assert forall i :: 0 <= i < |dead2| ==> del2[i] in m && dead2[i] == m[del2[i]].cmd;
    } else {
      assert (m.Keys - (keys - {k})) - Live(m, now).Keys == done;
    }
  }

  /** The test of one entry in the expiry scan: whether it ran out, and the new estimate. */
  method CheckEntry(rc: RunningCommand, fe: real, now: real) returns (expired: bool, fe2: real)
    ensures expired == Expired(rc, now) && fe2 == NextFirstExpiryCorrected(fe, rc, now)
  {
    var expiry := rc.lastHeard + 2.0 * (rc.heartbeatInterval as real);
    expired, fe2 := false, fe;
    if now > expiry {
      expired := true;
    } else if expiry + 1.0 < fe {
      fe2 := expiry + 1.0;
    }
  }

  /** One iteration of the expiry scan, over the entry under `k`. */
  method ScanEntry(m: map<CmdKey, RunningCommand>, keys: set<CmdKey>, k: CmdKey, ghost visited: seq<CmdKey>,
                   fe0: real, fe: real, del: seq<CmdKey>, dead: seq<Command>, now: real)
    returns (fe2: real, del2: seq<CmdKey>, dead2: seq<Command>, ghost visited2: seq<CmdKey>)
    requires k in keys && VisitInv(m, keys, visited, fe0, fe, now) && DeleteInv(m, keys, del, dead, now)
    ensures VisitInv(m, keys - {k}, visited2, fe0, fe2, now) && DeleteInv(m, keys - {k}, del2, dead2, now)
  {
    var rc := m[k];
    var expired;
    expired, fe2 := CheckEntry(rc, fe, now);
    del2, dead2 := if expired then del + [k] else del, if expired then dead + [rc.cmd] else dead;
    visited2 := visited + [k];
    VisitStep(m, keys, k, visited, fe0, fe, now);
    DeleteStep(m, keys, k, del, dead, now);
  }

  /** Deleting the listed expired entries leaves the live ones. */
  lemma DeletedIsLive(m: map<CmdKey, RunningCommand>, del: seq<CmdKey>, r: map<CmdKey, RunningCommand>, now: real)
    requires Enumerates(del, m.Keys - Live(m, now).Keys)
    requires forall k :: k in r <==> k in m && k !in del
    requires forall k :: k in r ==> r[k] == m[k]
    ensures r == Live(m, now)
  {
    forall k ensures k in r <==> k in Live(m, now) {
      if k in del {
        var i :| 0 <= i < |del| && del[i] == k;
        assert del[i] in m.Keys - Live(m, now).Keys;
      }
    }
  }

  /**
   * The first loop of checkHeartbeatTimes: every entry is visited once, in
   * an order the dictionary chooses.
   */
  method Scan(m: map<CmdKey, RunningCommand>, fe0: real, now: real)
    returns (fe: real, del: seq<CmdKey>, dead: seq<Command>, ghost visited: seq<CmdKey>)
    ensures Enumerates(visited, m.Keys) && fe == FirstExpiryCorrected(fe0, EntriesIn(m, visited), now)
    ensures Enumerates(del, m.Keys - Live(m, now).Keys)
    ensures |dead| == |del| && forall i :: 0 <= i < |dead| ==> del[i] in m && dead[i] == m[del[i]].cmd
  {
    fe := fe0;
    var keys := m.Keys;
    del, dead, visited := [], [], [];
    while keys != {}
      invariant VisitInv(m, keys, visited, fe0, fe, now)
      invariant DeleteInv(m, keys, del, dead, now)
      decreases |keys|
    {
      var k :| k in keys;
      fe, del, dead, visited := ScanEntry(m, keys, k, visited, fe0, fe, del, dead, now);
      keys := keys - {k};
    }
    assert m.Keys - keys == m.Keys;
  }

  /**
   * The entries once add has handled the first i commands: the old entries
   * as they were, plus a fresh entry under each of those commands' ids.
   */
  ghost predicate AddInv(m: map<CmdKey, RunningCommand>, m0: map<CmdKey, RunningCommand>, cmds: seq<Command>,
                         ids: seq<CmdKey>, i: nat, workerServer: String, heartbeatInterval: int, now: real) {
    && i <= |cmds| == |ids|
    && (forall k :: k in m <==> k in m0 || k in ids[..i])
    && (forall k :: k in m0 ==> m[k] == m0[k])
    && (forall j :: 0 <= j < i ==> ids[j] in m && m[ids[j]] == NewEntry(cmds[j], workerServer, heartbeatInterval, now))
  }

  /** Adding the entry of the command at position i extends the invariant to i + 1. */
  lemma AddInvStep(m: map<CmdKey, RunningCommand>, m0: map<CmdKey, RunningCommand>, cmds: seq<Command>,
                   ids: seq<CmdKey>, i: nat, workerServer: String, heartbeatInterval: int, now: real)
    requires i < |cmds| && AddInv(m, m0, cmds, ids, i, workerServer, heartbeatInterval, now)
    requires ids[i] !in m
    ensures AddInv(m[ids[i] := NewEntry(cmds[i], workerServer, heartbeatInterval, now)], m0, cmds, ids, i + 1,
                   workerServer, heartbeatInterval, now)
  {
    var m2 := m[ids[i] := NewEntry(cmds[i], workerServer, heartbeatInterval, now)];
    assert forall k :: k in ids[..i + 1] <==> k in ids[..i] || k == ids[i] by {
      assert ids[..i + 1] == ids[..i] + [ids[i]];
    }
    forall j | 0 <= j < i + 1
      ensures ids[j] in m2 && m2[ids[j]] == NewEntry(cmds[j], workerServer, heartbeatInterval, now)
    {
      if j < i {
        assert ids[j] in m;
      }
    }
  }

  /** The commands keep their ids, and the first i are marked running on `workerServer`. */
  ghost predicate Marked(cmds: seq<Command>, ids: seq<CmdKey>, i: nat, workerServer: String)
    reads cmds
  {
    && i <= |cmds| == |ids|
    && (forall j :: 0 <= j < |cmds| ==> cmds[j].id == ids[j])
    && (forall j :: 0 <= j < i ==> cmds[j].running && cmds[j].workerServer == Some(workerServer))
  }

  /** A command whose id is not running yet comes before the first repeat. */
  lemma BelowRepeat(m: map<CmdKey, RunningCommand>, m0: map<CmdKey, RunningCommand>, cmds: seq<Command>,
                    ids: seq<CmdKey>, i: nat, n: nat, workerServer: String, heartbeatInterval: int, now: real)
    requires i < |cmds| && i <= n && n == FirstRepeat(ids, m0.Keys)
    requires AddInv(m, m0, cmds, ids, i, workerServer, heartbeatInterval, now)
    requires ids[i] !in m
    ensures i < n
  {
    assert ids[i] !in m0 && ids[i] !in ids[..i];
    FirstRepeatPast(ids, m0.Keys, i);
  }

  class RunningCmdList {
    var runningCommands: map<CmdKey, RunningCommand>

    constructor()
      ensures runningCommands == map[]
    {
      runningCommands := map[];
    }

    /**
     * add: each command in turn gets an entry with no worker and is marked
     * running on `workerServer`. At the first command whose id is already
     * running, or repeats an earlier one, the list raises; the commands
     * before it stay added.
     */
    method Add(cmds: seq<Command>, workerServer: String, heartbeatInterval: int, now: real)
      returns (r: Result<(), ListError>, ghost n: nat, ghost ids: seq<CmdKey>)
      modifies this, cmds
      ensures ids == old(IdsOf(cmds)) && n == FirstRepeat(ids, old(runningCommands.Keys))
      ensures r.Err? <==> n < |cmds|
      ensures r.Err? ==> r.error == DuplicateCommandId
      ensures AddInv(runningCommands, old(runningCommands), cmds, ids, n, workerServer, heartbeatInterval, now)
      ensures Marked(cmds, ids, n, workerServer)
      ensures forall j :: n <= j < |cmds| && cmds[j] !in cmds[..n] ==> unchanged(cmds[j])
    {
      ids := IdsOf(cmds);
      n := FirstRepeat(ids, runningCommands.Keys);
      r := AddLoop(cmds, ids, n, workerServer, heartbeatInterval, now);
      assert forall j :: n <= j < |cmds| && cmds[j] !in cmds[..n] ==> cmds[j] !in set k | 0 <= k < n :: cmds[k];
    }

    /** add's loop: it changes only the commands before the first repeat. */
    method AddLoop(cmds: seq<Command>, ghost ids: seq<CmdKey>, ghost n: nat,
                   workerServer: String, heartbeatInterval: int, now: real) returns (r: Result<(), ListError>)
      requires ids == IdsOf(cmds) && n == FirstRepeat(ids, runningCommands.Keys)
      modifies this, set k | 0 <= k < n && k < |cmds| :: cmds[k]
      ensures r.Err? <==> n < |cmds|
      ensures r.Err? ==> r.error == DuplicateCommandId
      ensures AddInv(runningCommands, old(runningCommands), cmds, ids, n, workerServer, heartbeatInterval, now)
      ensures Marked(cmds, ids, n, workerServer)
    {
      ghost var m0 := runningCommands;
      for i := 0 to |cmds|
        invariant i <= n
        invariant AddInv(runningCommands, m0, cmds, ids, i, workerServer, heartbeatInterval, now)
        invariant Marked(cmds, ids, i, workerServer)
      {
        if cmds[i].id in runningCommands {
          return Err(DuplicateCommandId);
        }
        BelowRepeat(runningCommands, m0, cmds, ids, i, n, workerServer, heartbeatInterval, now);
        AddStep(cmds, ids, m0, i, n, workerServer, heartbeatInterval, now);
      }
      return Ok(());
    }

    /** One iteration of add's loop, over a command whose id is not running yet. */
    method AddStep(cmds: seq<Command>, ghost ids: seq<CmdKey>, ghost m0: map<CmdKey, RunningCommand>,
                   i: nat, ghost n: nat, workerServer: String, heartbeatInterval: int, now: real)
      requires i < |cmds| && i <= n && n == FirstRepeat(ids, m0.Keys)
      requires AddInv(runningCommands, m0, cmds, ids, i, workerServer, heartbeatInterval, now)
      requires Marked(cmds, ids, i, workerServer)
      requires cmds[i].id !in runningCommands
      modifies this, cmds[i]
      ensures i + 1 <= n
      ensures AddInv(runningCommands, m0, cmds, ids, i + 1, workerServer, heartbeatInterval, now)
      ensures Marked(cmds, ids, i + 1, workerServer)
    {
      var cmd := cmds[i];
      assert ids[i] !in m0 && ids[i] !in ids[..i];
      FirstRepeatPast(ids, m0.Keys, i);
      assert forall j :: 0 <= j < i ==> cmds[j] != cmd by {
        forall j | 0 <= j < i ensures cmds[j] != cmd {
          assert ids[j] in ids[..i];
        }
      }
      AddInvStep(runningCommands, m0, cmds, ids, i, workerServer, heartbeatInterval, now);
      AddOne(cmd, workerServer, heartbeatInterval, now, cmds, ids, i);
    }

    /**
     * One iteration of add, for a command whose id is not running yet; it is
     * command i of the list, the commands before it already marked.
     */
    method AddOne(cmd: Command, workerServer: String, heartbeatInterval: int, now: real,
                  ghost cmds: seq<Command>, ghost ids: seq<CmdKey>, ghost i: nat)
      requires cmd.id !in runningCommands
      requires i < |cmds| && cmds[i] == cmd && Marked(cmds, ids, i, workerServer)
      requires forall j :: 0 <= j < i ==> cmds[j] != cmd
      modifies this, cmd
      ensures cmd.id == old(cmd.id)
      ensures runningCommands == old(runningCommands)[cmd.id := NewEntry(cmd, workerServer, heartbeatInterval, now)]
      ensures cmd.running && cmd.workerServer == Some(workerServer)
      ensures Marked(cmds, ids, i + 1, workerServer)
    {
      runningCommands := runningCommands[cmd.id := NewEntry(cmd, workerServer, heartbeatInterval, now)];
      cmd.SetRunning(true, Some(workerServer));
    }

    /** remove: the command's entry is deleted; an unknown command raises and changes nothing. */
    method Remove(cmd: Command) returns (r: Result<(), ListError>)
      modifies this
      ensures r.Ok? <==> old(cmd.id in runningCommands)
      ensures r.Err? ==> r.error == CommandNotFound(cmd.id)
      ensures runningCommands == old(runningCommands) - {cmd.id}
    {
      if cmd.id !in runningCommands {
        return Err(CommandNotFound(cmd.id));
      }
      runningCommands := runningCommands - {cmd.id};
      return Ok(());
    }

    /**
     * handleFinished, up to the removal: the entry is deleted and its
     * command handed on for the finishing steps; an unknown id raises.
     */
    method HandleFinished(cmdId: CmdKey) returns (r: Result<Command, ListError>)
      modifies this
      ensures r.Ok? <==> cmdId in old(runningCommands)
      ensures r.Ok? ==> r.value == old(runningCommands[cmdId].cmd)
      ensures r.Err? ==> r.error == CommandNotFound(cmdId)
      ensures runningCommands == old(runningCommands) - {cmdId}
    {
      if cmdId !in runningCommands {
        return Err(CommandNotFound(cmdId));
      }
      var cmd := runningCommands[cmdId].cmd;
      runningCommands := runningCommands - {cmdId};
      return Ok(cmd);
    }

    /**
     * ping: every item is answered in order, and the answer is True exactly
     * when every item was answered OK.
     */
    method Ping(workerId: String, workerDir: String, items: seq<HeartbeatItem>, now: real)
      returns (ok: bool, states: seq<ItemState>)
      modifies this
      ensures (runningCommands, states) == PingRun(old(runningCommands), workerId, workerDir, items, now)
      ensures ok <==> forall i :: 0 <= i < |states| ==> states[i] == StateOK
    {
      ghost var m0 := runningCommands;
      ok := true;
      states := [];
      for i := 0 to |items|
        invariant (runningCommands, states) == PingRun(m0, workerId, workerDir, items[..i], now)
        invariant ok <==> forall j :: 0 <= j < |states| ==> states[j] == StateOK
      {
        assert items[..i + 1][..i] == items[..i];
        var step := PingItem(runningCommands, workerId, workerDir, items[i], now);
        ghost var prev := states;
        states := states + [step.0];
        assert forall j :: 0 <= j < |prev| ==> states[j] == prev[j];
        assert states[|prev|] == step.0;
        ok := ok && step.0 == StateOK;
        runningCommands := step.1;
      }
      assert items[..|items|] == items;
    }

    /** The second loop of checkHeartbeatTimes: every listed entry is deleted. */
    method DeleteAll(del: seq<CmdKey>)
      modifies this
      ensures forall k :: k in runningCommands <==> k in old(runningCommands) && k !in del
      ensures forall k :: k in runningCommands ==> runningCommands[k] == old(runningCommands[k])
    {
      for i := 0 to |del|
        invariant forall k :: k in runningCommands <==> k in old(runningCommands) && k !in del[..i]
        invariant forall k :: k in runningCommands ==> runningCommands[k] == old(runningCommands[k])
      {
        assert del[..i + 1] == del[..i] + [del[i]];
        runningCommands := runningCommands - {del[i]};
      }
      assert del[..|del|] == del;
    }

    /**
     * checkHeartbeatTimes: exactly the entries that have run out are
     * removed, and their commands are returned, to be queued again. The
     * first-expiry estimate is the one the scan computes over the entries
     * in the dictionary's order `visited`, starting from `now` plus the
     * server's heartbeat time.
     */
    method CheckHeartbeatTimes(now: real, heartbeatTime: real)
      returns (firstExpiry: real, dead: seq<Command>, ghost visited: seq<CmdKey>, ghost todelete: seq<CmdKey>)
      modifies this
      ensures Enumerates(visited, old(runningCommands).Keys)
      ensures firstExpiry == FirstExpiryCorrected(now + heartbeatTime, EntriesIn(old(runningCommands), visited), now)
      ensures runningCommands == Live(old(runningCommands), now)
      ensures Enumerates(todelete, old(runningCommands).Keys - Live(old(runningCommands), now).Keys)
      ensures |dead| == |todelete| && forall i :: 0 <= i < |dead| ==> dead[i] == old(runningCommands)[todelete[i]].cmd
    {
      var m := runningCommands;
      var del;
      firstExpiry, del, dead, visited := Scan(m, now + heartbeatTime, now);
      DeleteAll(del);
      DeletedIsLive(m, del, runningCommands, now);
      todelete := del;
    }
  }
}
