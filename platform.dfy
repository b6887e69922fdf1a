/**
 * A worker platform (cpc/command/platform.py) with its maximum, minimum and
 * preferred resources. Reserving a command's resources lowers the platform's
 * maximum resources in place; releasing them raises them back.
 */
module Platforms {
  import opened Wrappers
  import opened Text
  import opened Resources
  import opened Commands

  /** The amounts left after reserving `res` from `avail`; names `res` lacks are untouched. */
  function AfterReserve(avail: map<String, int>, res: map<String, int>): (r: map<String, int>)
    ensures r.Keys == avail.Keys
    ensures forall n :: n in avail && n in res ==> r[n] == avail[n] - res[n]
    ensures forall n :: n in avail && n !in res ==> r[n] == avail[n]
  {
    map n | n in avail :: if n in res then avail[n] - res[n] else avail[n]
  }

  /** The amounts after handing `res` back to `avail`. */
  function AfterRelease(avail: map<String, int>, res: map<String, int>): (r: map<String, int>)
    ensures r.Keys == avail.Keys
    ensures forall n :: n in avail && n in res ==> r[n] == avail[n] + res[n]
    ensures forall n :: n in avail && n !in res ==> r[n] == avail[n]
  {
    map n | n in avail :: if n in res then avail[n] + res[n] else avail[n]
  }

  /** Releasing what was reserved restores every amount. */
  lemma ReleaseUndoesReserve(avail: map<String, int>, res: map<String, int>)
    ensures AfterRelease(AfterReserve(avail, res), res) == avail
  {
    var back := AfterRelease(AfterReserve(avail, res), res);
    forall n | n in avail
      ensures back[n] == avail[n]
    {
    }
  }

  /** Reserving what was released restores every amount. */
  lemma ReserveUndoesRelease(avail: map<String, int>, res: map<String, int>)
    ensures AfterReserve(AfterRelease(avail, res), res) == avail
  {
    var back := AfterReserve(AfterRelease(avail, res), res);
    forall n | n in avail
      ensures back[n] == avail[n]
    {
    }
  }

  /** A reservation fits when no amount it touches would drop below zero. */
  predicate CanReserve(avail: map<String, int>, res: map<String, int>) {
    forall n :: n in avail && n in res ==> avail[n] - res[n] >= 0
  }

  /** When a reservation fits, reserving it from non-negative amounts leaves them non-negative. */
  lemma CanReserveKeepsNonNegative(avail: map<String, int>, res: map<String, int>)
    requires forall n :: n in avail ==> avail[n] >= 0
    ensures CanReserve(avail, res) <==> forall n :: n in avail ==> AfterReserve(avail, res)[n] >= 0
  {
    if CanReserve(avail, res) {
      forall n | n in avail
        ensures AfterReserve(avail, res)[n] >= 0
      {
      }
    } else {
      var n :| n in avail && n in res && avail[n] - res[n] < 0;
      assert AfterReserve(avail, res)[n] < 0;
    }
  }

  /** The amounts once the names in `done` have been reserved (or released). */
  function ShiftedSoFar(avail: map<String, int>, res: map<String, int>, done: set<String>, release: bool)
    : (r: map<String, int>)
    ensures r.Keys == avail.Keys
  {
    map n | n in avail ::
      if n in done && n in res then (if release then avail[n] + res[n] else avail[n] - res[n])
      else avail[n]
  }

  lemma ShiftedSoFarStep(avail: map<String, int>, res: map<String, int>, done: set<String>, release: bool, n: String)
    requires n in avail && n !in done
    ensures ShiftedSoFar(avail, res, done + {n}, release) ==
      ShiftedSoFar(avail, res, done, release)[n := if n in res then (if release then avail[n] + res[n] else avail[n] - res[n]) else avail[n]]
  {
  }

  lemma ShiftedSoFarAll(avail: map<String, int>, res: map<String, int>, release: bool)
    ensures ShiftedSoFar(avail, res, avail.Keys, release) ==
      (if release then AfterRelease(avail, res) else AfterReserve(avail, res))
  {
  }

  /** The loop body of reserveCmdResources / releaseCmdResources for the resource named `n`. */
  method ShiftOne(avail: map<String, Resource>, res: map<String, Resource>, n: String, release: bool)
    requires KeyedByName(avail) && KeyedByName(res) && n in avail
    modifies avail[n]
    ensures Values(avail) == old(Values(avail))[n :=
      if n in res then (if release then old(avail[n].value) + old(res[n].value) else old(avail[n].value) - old(res[n].value))
      else old(avail[n].value)]
    ensures forall m :: m in res && m != n ==> res[m].value == old(res[m].value)
  {
    if n in res {
      if release {
        avail[n].value := avail[n].value + res[n].value;
      } else {
        avail[n].value := avail[n].value - res[n].value;
      }
    }
  }

  /** ShiftOne, stated against the amounts shifted so far. */
  method ShiftStep(avail: map<String, Resource>, res: map<String, Resource>, n: String, release: bool,
                   ghost a0: map<String, int>, ghost r0: map<String, int>, ghost done: set<String>)
    requires KeyedByName(avail) && KeyedByName(res) && n in avail && n !in done
    requires avail.Keys == a0.Keys && res.Keys == r0.Keys
    requires Values(avail) == ShiftedSoFar(a0, r0, done, release)
    requires n in res ==> res[n].value == r0[n]
    modifies avail[n]
    ensures Values(avail) == ShiftedSoFar(a0, r0, done + {n}, release)
    ensures forall m :: m in res && m != n ==> res[m].value == old(res[m].value)
  {
    ShiftedSoFarStep(a0, r0, done, release, n);
    ghost var before := Values(avail);
    assert avail[n].value == before[n] == a0[n];
    ghost var shifted := if n in r0 then (if release then a0[n] + r0[n] else a0[n] - r0[n]) else a0[n];
    assert shifted == if n in res then (if release then avail[n].value + res[n].value else avail[n].value - res[n].value)
                      else avail[n].value;
    ShiftOne(avail, res, n, release);
    assert Values(avail) == before[n := shifted];
  }

  /** The loop of reserveCmdResources (release false) and releaseCmdResources (release true). */
  method ShiftAll(avail: map<String, Resource>, res: map<String, Resource>, release: bool)
    requires KeyedByName(avail) && KeyedByName(res)
    modifies avail.Values
    ensures Values(avail) == (if release then AfterRelease(old(Values(avail)), old(Values(res)))
                              else AfterReserve(old(Values(avail)), old(Values(res))))
  {
    ghost var a0 := Values(avail);
    ghost var r0 := Values(res);
    var todo := avail.Keys;
    ghost var done: set<String> := {};
    while todo != {}
      invariant todo <= avail.Keys && done == avail.Keys - todo
      invariant Values(avail) == ShiftedSoFar(a0, r0, done, release)
      invariant forall n :: n in todo && n in res ==> res[n].value == r0[n]
      decreases todo
    {
      var n :| n in todo;
      ShiftStep(avail, res, n, release, a0, r0, done);
      assert avail.Keys - (todo - {n}) == done + {n};
      todo := todo - {n};
      done := done + {n};
    }
    assert done == avail.Keys;
    ShiftedSoFarAll(a0, r0, release);
  }

  /** The loop of canReserveCmdResources. */
  method CanReserveAll(avail: map<String, Resource>, res: map<String, Resource>) returns (ok: bool)
    ensures ok <==> CanReserve(Values(avail), Values(res))
  {
    var todo := avail.Keys;
    while todo != {}
      invariant todo <= avail.Keys
      invariant forall n :: n in avail && n !in todo && n in res ==> avail[n].value - res[n].value >= 0
      decreases todo
    {
      var n :| n in todo;
      if n in res {
        if avail[n].value - res[n].value < 0 {
          return false;
        }
      }
      todo := todo - {n};
    }
    return true;
  }

  class Platform {
    const name: String
    const arch: String
    const preferJoin: bool
    const callRun: bool
    const callFinish: bool
    var maxResources: map<String, Resource>
    var minResources: map<String, Resource>
    var prefResources: map<String, Resource>

    ghost predicate Valid()
      reads this
    {
      KeyedByName(maxResources) && KeyedByName(minResources) && KeyedByName(prefResources)
    }

    constructor (name: String, arch: String, preferJoin: bool, callRun: bool, callFinish: bool)
      ensures Valid()
      ensures this.name == name && this.arch == arch && this.preferJoin == preferJoin
      ensures this.callRun == callRun && this.callFinish == callFinish
      ensures maxResources == map[] && minResources == map[] && prefResources == map[]
    {
      this.name := name;
      this.arch := arch;
      this.preferJoin := preferJoin;
      this.callRun := callRun;
      this.callFinish := callFinish;
      maxResources := map[];
      minResources := map[];
      prefResources := map[];
    }

    method AddMaxResource(rsrc: Resource)
      requires Valid()
      modifies this
      ensures Valid() && maxResources == old(maxResources)[rsrc.name := rsrc]
      ensures minResources == old(minResources) && prefResources == old(prefResources)
    {
      maxResources := maxResources[rsrc.name := rsrc];
    }

    method AddMinResource(rsrc: Resource)
      requires Valid()
      modifies this
      ensures Valid() && minResources == old(minResources)[rsrc.name := rsrc]
      ensures maxResources == old(maxResources) && prefResources == old(prefResources)
    {
      minResources := minResources[rsrc.name := rsrc];
    }

    method AddPrefResource(rsrc: Resource)
      requires Valid()
      modifies this
      ensures Valid() && prefResources == old(prefResources)[rsrc.name := rsrc]
      ensures maxResources == old(maxResources) && minResources == old(minResources)
    {
      prefResources := prefResources[rsrc.name := rsrc];
    }

    /** getMaxResource: the stored amount, or None when the platform has no such maximum. */
    function GetMaxResource(name: String): (r: Option<int>)
      reads this, maxResources.Values
      ensures r.Some? <==> HasMaxResource(name)
      ensures r.Some? ==> r.value == maxResources[name].value
    {
      Lookup(maxResources, name)
    }

    predicate HasMaxResource(name: String)
      reads this
    {
      name in maxResources
    }

    function GetMinResource(name: String): (r: Option<int>)
      reads this, minResources.Values
      ensures r.Some? <==> name in minResources
      ensures r.Some? ==> r.value == minResources[name].value
    {
      Lookup(minResources, name)
    }

    function GetPrefResource(name: String): (r: Option<int>)
      reads this, prefResources.Values
      ensures r.Some? <==> name in prefResources
      ensures r.Some? ==> r.value == prefResources[name].value
    {
      Lookup(prefResources, name)
    }

    /** reserveCmdResources: each maximum the command reserves goes down by the reserved amount. */
    method ReserveCmdResources(cmd: Command)
      requires Valid() && cmd.Valid()
      modifies maxResources.Values
      ensures Values(maxResources) == AfterReserve(old(Values(maxResources)), old(Values(cmd.reserved)))
    {
      ShiftAll(maxResources, cmd.reserved, false);
    }

    /** releaseCmdResources: each maximum the command reserves goes back up by the reserved amount. */
    method ReleaseCmdResources(cmd: Command)
      requires Valid() && cmd.Valid()
      modifies maxResources.Values
      ensures Values(maxResources) == AfterRelease(old(Values(maxResources)), old(Values(cmd.reserved)))
    {
      ShiftAll(maxResources, cmd.reserved, true);
    }

    /** canReserveCmdResources: no maximum would drop below zero; reserved names without a maximum are ignored. */
    method CanReserveCmdResources(cmd: Command) returns (ok: bool)
      ensures ok <==> CanReserve(Values(maxResources), Values(cmd.reserved))
    {
      ok := CanReserveAll(maxResources, cmd.reserved);
    }
  }

  /**
   * Reserving and then releasing the same command's resources gives the
   * platform back every maximum it had, when the platform's and the
   * command's resource objects are distinct.
   */
  method ReserveThenRelease(p: Platform, cmd: Command)
    requires p.Valid() && cmd.Valid()
    requires forall n :: n in cmd.reserved ==> cmd.reserved[n] !in p.maxResources.Values
    modifies p.maxResources.Values
    ensures Values(p.maxResources) == old(Values(p.maxResources))
  {
    ghost var res := Values(cmd.reserved);
    p.ReserveCmdResources(cmd);
    assert Values(cmd.reserved) == res;
    p.ReleaseCmdResources(cmd);
    ReleaseUndoesReserve(old(Values(p.maxResources)), res);
  }
}
