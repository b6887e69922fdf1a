/**
 * Matching queued commands to a worker (cpc/command/worker_matcher.py).
 * The matcher picks the worker platform with the most cores, then, over
 * successive commands, keeps one command type and adds each accepted
 * command's reservation to the amounts already used.
 */
module WorkerMatcher {
  import opened Wrappers
  import opened Text
  import opened Resources
  import opened Commands
  import opened Platforms

  /**
   * What ExecutableList.find is asked: an executable name on a platform,
   * within a version range.
   */
  datatype ExecQuery = ExecQuery(executable: String, platform: String,
                                 minVersion: Option<String>, maxVersion: Option<String>)

  // ---------------------------------------------------------------- the platform to use

  /**
   * The constructor's scan over the first k platforms' core counts: the
   * largest count seen so far (starting from 0) and the index of the first
   * platform that reached it (0 when none exceeded 0).
   */
  function BestUpTo(cores: seq<Option<int>>, k: nat): (r: (int, nat))
    requires k <= |cores|
    ensures r.0 >= 0
    ensures k == 0 ==> r.1 == 0
    ensures k > 0 ==> r.1 < k
    ensures forall j :: 0 <= j < k && cores[j].Some? ==> cores[j].value <= r.0
    ensures r.0 > 0 ==> r.1 < k && cores[r.1] == Some(r.0)
    ensures r.0 > 0 ==> forall j :: 0 <= j < r.1 && cores[j].Some? ==> cores[j].value < r.0
    ensures r.0 == 0 ==> r.1 == 0
  {
    if k == 0 then (0, 0)
    else
      var prev := BestUpTo(cores, k - 1);
      if cores[k - 1].Some? && cores[k - 1].value > prev.0 then (cores[k - 1].value, k - 1)
      else prev
  }

  /**
   * The platform the matcher uses: the first one with the strictly largest
   * positive core maximum, or the first platform when none has one.
   */
  function BestPlatform(cores: seq<Option<int>>): (i: nat)
    requires |cores| > 0
    ensures i < |cores|
  {
    BestUpTo(cores, |cores|).1
  }

  lemma {:induction false} BestPlatformIsFirstLargest(cores: seq<Option<int>>)
    requires |cores| > 0
    ensures var i := BestPlatform(cores);
      ((forall j :: 0 <= j < |cores| && cores[j].Some? ==> cores[j].value <= 0) ==> i == 0)
      && ((exists j :: 0 <= j < |cores| && cores[j].Some? && cores[j].value > 0) ==>
            cores[i].Some? && cores[i].value > 0
            && (forall j :: 0 <= j < |cores| && cores[j].Some? ==> cores[j].value <= cores[i].value)
            && (forall j :: 0 <= j < i && cores[j].Some? ==> cores[j].value < cores[i].value))
  {
    var r := BestUpTo(cores, |cores|);
    if r.0 == 0 {
      assert r.1 == 0;
    }
  }

  // ---------------------------------------------------------------- the executable

  function Query(cmd: Command, platform: String): ExecQuery {
    ExecQuery(cmd.executable, platform, cmd.minVersion, cmd.maxVersion)
  }

  /** The first of the platforms from index k on for which the executable is found. */
  function FirstExecFrom(find: ExecQuery -> Option<String>, cmd: Command, ps: seq<Platform>, k: nat)
    : (r: Option<String>)
    requires k <= |ps|
    ensures r.None? <==> forall j :: k <= j < |ps| ==> find(Query(cmd, ps[j].name)).None?
    ensures r.Some? ==> exists j :: k <= j < |ps| && find(Query(cmd, ps[j].name)) == r
                                   && forall i :: k <= i < j ==> find(Query(cmd, ps[i].name)).None?
    decreases |ps| - k
  {
    if k == |ps| then None
    else
      var here := find(Query(cmd, ps[k].name));
      if here.Some? then here else FirstExecFrom(find, cmd, ps, k + 1)
  }

  // ---------------------------------------------------------------- resource allocation

  function Get(m: map<String, int>, n: String): Option<int> {
    if n in m then Some(m[n]) else None
  }

  /**
   * The amount reserved from `left` units: the platform preference if more
   * than that is left, else the command's maximum if more than that is
   * left, else all that is left.
   */
  function Chosen(left: int, pref: Option<int>, cmdMax: Option<int>): (v: int)
    ensures v <= left
    ensures v == left || (pref.Some? && v == pref.value) || (cmdMax.Some? && v == cmdMax.value)
  {
    if pref.Some? && left > pref.value then pref.value
    else if cmdMax.Some? && left > cmdMax.value then cmdMax.value
    else left
  }

  /** Whether the choice was capped by the command's maximum (which marks the worker depleted). */
  predicate CappedByCommand(left: int, pref: Option<int>, cmdMax: Option<int>) {
    !(pref.Some? && left > pref.value) && cmdMax.Some? && left > cmdMax.value
  }

  /** The amounts a platform offers, the amounts used, and the command's requirements. */
  datatype Budget = Budget(maxv: map<String, int>, prefv: map<String, int>, used: map<String, int>,
                           minv: map<String, int>, cmdMaxv: map<String, int>)
  {
    predicate WellFormed() { used.Keys <= maxv.Keys }

    function Left(n: String): int
      requires WellFormed() && n in used
    {
      maxv[n] - used[n]
    }

    /** Every resource in use still has at least the command's minimum left. */
    predicate Fits()
      requires WellFormed()
    {
      forall n :: n in used && n in minv ==> Left(n) >= minv[n]
    }

    function Reserve(n: String): int
      requires WellFormed() && n in used
    {
      Chosen(Left(n), Get(prefv, n), Get(cmdMaxv, n))
    }

    /** The used amounts once the names in `done` have been reserved. */
    function UsedSoFar(done: set<String>): (r: map<String, int>)
      requires WellFormed()
      ensures r.Keys == used.Keys
    {
      map n | n in used :: if n in done && n in minv then used[n] + Reserve(n) else used[n]
    }

    /** The reservation once the names in `done` have been set (the rest as copied from the minimum). */
    function ReservedSoFar(done: set<String>): (r: map<String, int>)
      requires WellFormed()
      ensures r.Keys == minv.Keys
    {
      map n | n in minv :: if n in done && n in used then Reserve(n) else minv[n]
    }

    predicate DepletesSoFar(done: set<String>)
      requires WellFormed()
    {
      exists n :: n in done && n in used && n in minv && CappedByCommand(Left(n), Get(prefv, n), Get(cmdMaxv, n))
    }

    /** The used amounts after an accepted command. */
    function UsedAfter(): map<String, int>
      requires WellFormed()
    {
      UsedSoFar(used.Keys)
    }

    /** The command's reservation after it is accepted. */
    function ReservedAfter(): map<String, int>
      requires WellFormed()
    {
      ReservedSoFar(used.Keys)
    }

    /** Whether some reservation was capped by the command's maximum. */
    predicate Depletes()
      requires WellFormed()
    {
      DepletesSoFar(used.Keys)
    }
  }

  /** An accepted command never pushes a resource's use past the platform maximum. */
  lemma {:induction false} ReserveWithinMaximum(b: Budget)
    requires b.WellFormed()
    ensures forall n :: n in b.used && n in b.minv ==> b.UsedSoFar(b.used.Keys)[n] <= b.maxv[n]
  {
    forall n | n in b.used && n in b.minv
      ensures b.UsedSoFar(b.used.Keys)[n] <= b.maxv[n]
    {
      assert b.Reserve(n) <= b.Left(n);
    }
  }

  /**
   * The platform preference wins even below the command's minimum: with 8
   * cores left, a preference of 1 and a minimum of 4, one core is reserved.
   */
  lemma PreferenceBelowMinimum()
    ensures var b := Budget(map["cores" := 8], map["cores" := 1], map["cores" := 0],
                            map["cores" := 4], map[]);
      b.WellFormed() && b.Fits() && b.ReservedSoFar(b.used.Keys)["cores"] == 1
  {
    var b := Budget(map["cores" := 8], map["cores" := 1], map["cores" := 0], map["cores" := 4], map[]);
    assert b.Reserve("cores") == 1;
  }

  /** The first loop of checkAddResources. */
  method FitsAll(b: Budget) returns (ok: bool)
    requires b.WellFormed()
    ensures ok <==> b.Fits()
  {
    var todo := b.used.Keys;
    while todo != {}
      invariant todo <= b.used.Keys
      invariant forall n :: n in b.used && n !in todo && n in b.minv ==> b.Left(n) >= b.minv[n]
      decreases todo
    {
      var n :| n in todo;
      var rsrcLeft := b.maxv[n] - b.used[n];
      if n in b.minv && rsrcLeft < b.minv[n] {
        return false;
      }
      todo := todo - {n};
    }
    return true;
  }

  lemma UsedSoFarStep(b: Budget, done: set<String>, n: String)
    requires b.WellFormed() && n in b.used && n !in done
    ensures b.UsedSoFar(done + {n}) ==
      (if n in b.minv then b.UsedSoFar(done)[n := b.used[n] + b.Reserve(n)] else b.UsedSoFar(done))
  {
  }

  lemma ReservedSoFarStep(b: Budget, done: set<String>, n: String)
    requires b.WellFormed() && n in b.used && n !in done
    ensures b.ReservedSoFar(done + {n}) ==
      (if n in b.minv then b.ReservedSoFar(done)[n := b.Reserve(n)] else b.ReservedSoFar(done))
  {
  }

  lemma DepletesSoFarStep(b: Budget, done: set<String>, n: String)
    requires b.WellFormed() && n in b.used
    ensures b.DepletesSoFar(done + {n}) <==>
      b.DepletesSoFar(done) || (n in b.minv && CappedByCommand(b.Left(n), Get(b.prefv, n), Get(b.cmdMaxv, n)))
  {
    if b.DepletesSoFar(done + {n}) && !b.DepletesSoFar(done) {
      var m :| m in done + {n} && m in b.used && m in b.minv
               && CappedByCommand(b.Left(m), Get(b.prefv, m), Get(b.cmdMaxv, m));
      assert m == n;
    }
  }

  /** The amount checkAddResources reserves from what is left, and whether the command's maximum capped it. */
  method ChooseAmount(rsrcLeft: int, platformPref: Option<int>, cmdMaxRsrc: Option<int>)
    returns (value: int, capped: bool)
    ensures value == Chosen(rsrcLeft, platformPref, cmdMaxRsrc)
    ensures capped == CappedByCommand(rsrcLeft, platformPref, cmdMaxRsrc)
  {
    capped := false;
    if platformPref.Some? && rsrcLeft > platformPref.value {
      value := platformPref.value;
    } else if cmdMaxRsrc.Some? && rsrcLeft > cmdMaxRsrc.value {
      value := cmdMaxRsrc.value;
      capped := true;
    } else {
      value := rsrcLeft;
    }
  }

  /** The command's reservations in the second loop of checkAddResources, after the names in `done`. */
  ghost predicate ReservedAt(b: Budget, cmd: Command, r0: map<String, Resource>, done: set<String>)
    reads cmd, cmd.reserved.Values
    requires b.WellFormed()
  {
    cmd.Valid() && cmd.reserved.Keys == b.minv.Keys && r0.Keys == b.minv.Keys
    && Values(cmd.reserved) == b.ReservedSoFar(done)
    && (forall n :: n in cmd.reserved && (n !in done || n !in b.used) ==> cmd.reserved[n] == r0[n])
  }

  /** setReserved for the resource named `n`, stated against the reservations made so far. */
  method ReserveIn(b: Budget, cmd: Command, n: String, value: int,
                   ghost r0: map<String, Resource>, ghost done: set<String>)
    requires b.WellFormed() && n in b.used && n in b.minv && n !in done && value == b.Reserve(n)
    requires ReservedAt(b, cmd, r0, done)
    modifies cmd
    ensures ReservedAt(b, cmd, r0, done + {n})
    ensures cmd.minRequired == old(cmd.minRequired) && cmd.maxAllowed == old(cmd.maxAllowed)
    ensures cmd.running == old(cmd.running) && cmd.cputime == old(cmd.cputime)
  {
    ReservedSoFarStep(b, done, n);
    ghost var before := Values(cmd.reserved);
    cmd.SetReserved(n, value);
    assert Values(cmd.reserved) == before[n := value];
  }

  /** One pass of the second loop of checkAddResources, for the resource named `n`. */
  method ReserveOne(b: Budget, cmd: Command, n: String, used: map<String, int>, capped: bool,
                    ghost r0: map<String, Resource>, ghost done: set<String>)
    returns (used': map<String, int>, capped': bool)
    requires b.WellFormed() && n in b.used && n !in done
    requires ReservedAt(b, cmd, r0, done) && used == b.UsedSoFar(done) && (capped <==> b.DepletesSoFar(done))
    modifies cmd
    ensures ReservedAt(b, cmd, r0, done + {n})
    ensures used' == b.UsedSoFar(done + {n}) && (capped' <==> b.DepletesSoFar(done + {n}))
    ensures cmd.minRequired == old(cmd.minRequired) && cmd.maxAllowed == old(cmd.maxAllowed)
    ensures cmd.running == old(cmd.running) && cmd.cputime == old(cmd.cputime)
  {
    UsedSoFarStep(b, done, n);
    DepletesSoFarStep(b, done, n);
    if n in b.minv {
      var rsrcLeft := b.maxv[n] - used[n];
      var value, cappedHere := ChooseAmount(rsrcLeft, Get(b.prefv, n), Get(b.cmdMaxv, n));
      assert used[n] == b.used[n] && rsrcLeft == b.Left(n);
      assert value == b.Reserve(n);
      used', capped' := used[n := used[n] + value], capped || cappedHere;
      assert used' == b.UsedSoFar(done)[n := b.used[n] + b.Reserve(n)];
      ReserveIn(b, cmd, n, value, r0, done);
    } else {
      used', capped' := used, capped;
      ReservedAtSkip(b, cmd, r0, done, n);
    }
  }

  /** A resource the command does not require leaves its reservations as they are. */
  lemma ReservedAtSkip(b: Budget, cmd: Command, r0: map<String, Resource>, done: set<String>, n: String)
    requires b.WellFormed() && n in b.used && n !in b.minv && n !in done
    requires ReservedAt(b, cmd, r0, done)
    ensures ReservedAt(b, cmd, r0, done + {n})
  {
    ReservedSoFarStep(b, done, n);
  }

  /**
   * The second loop of checkAddResources: a fresh reservation for every
   * resource in use that the command requires, with the amount added to
   * the used amounts.
   */
  method ReserveAll(b: Budget, cmd: Command) returns (used: map<String, int>, capped: bool)
    requires b.WellFormed() && cmd.Valid() && cmd.reserved.Keys == b.minv.Keys
    requires Values(cmd.reserved) == b.minv
    modifies cmd
    ensures cmd.Valid() && cmd.reserved.Keys == b.minv.Keys
    ensures used == b.UsedSoFar(b.used.Keys)
    ensures capped <==> b.DepletesSoFar(b.used.Keys)
    ensures Values(cmd.reserved) == b.ReservedSoFar(b.used.Keys)
    ensures forall n :: n in cmd.reserved && n !in b.used ==> cmd.reserved[n] == old(cmd.reserved)[n]
    ensures cmd.minRequired == old(cmd.minRequired) && cmd.maxAllowed == old(cmd.maxAllowed)
    ensures cmd.running == old(cmd.running) && cmd.cputime == old(cmd.cputime)
  {
    used := b.used;
    capped := false;
    ghost var r0 := cmd.reserved;
    var todo := b.used.Keys;
    ghost var done: set<String> := {};
    assert b.UsedSoFar({}) == b.used;
    assert b.ReservedSoFar({}) == b.minv;
    while todo != {}
      invariant todo <= b.used.Keys && done == b.used.Keys - todo
      invariant ReservedAt(b, cmd, r0, done) && used == b.UsedSoFar(done) && (capped <==> b.DepletesSoFar(done))
      invariant cmd.minRequired == old(cmd.minRequired) && cmd.maxAllowed == old(cmd.maxAllowed)
      invariant cmd.running == old(cmd.running) && cmd.cputime == old(cmd.cputime)
      decreases todo
    {
      var n :| n in todo;
      used, capped := ReserveOne(b, cmd, n, used, capped, r0, done);
      assert b.used.Keys - (todo - {n}) == done + {n};
      todo := todo - {n};
      done := done + {n};
    }
    assert done == b.used.Keys;
  }

  // ---------------------------------------------------------------- the matcher

  class Matcher {
    const platforms: seq<Platform>
    /** ExecutableList.find: the id of a matching executable, if any. */
    const find: ExecQuery -> Option<String>
    const workerReqs: map<String, String>
    /** The platforms' core maxima when the matcher was built. */
    ghost const cores: seq<Option<int>>
    const usePlatform: Platform
    /** Amount used so far per maximum resource of the platform used. */
    var used: map<String, int>
    /** The function name of the first command accepted. */
    var cmdType: Option<String>
    var depleted: bool

    ghost predicate Valid()
      reads this, usePlatform
    {
      used.Keys <= usePlatform.maxResources.Keys
    }

    constructor (platforms: seq<Platform>, find: ExecQuery -> Option<String>, workerReqs: map<String, String>)
      requires |platforms| > 0
      ensures Valid()
      ensures this.platforms == platforms && this.find == find && this.workerReqs == workerReqs
      ensures |cores| == |platforms|
      ensures forall i :: 0 <= i < |platforms| ==> cores[i] == platforms[i].GetMaxResource("cores")
      ensures usePlatform == platforms[BestPlatform(cores)]
      ensures used.Keys == usePlatform.maxResources.Keys && forall n :: n in used ==> used[n] == 0
      ensures cmdType == None && !depleted
    {
      this.platforms := platforms;
      this.find := find;
      this.workerReqs := workerReqs;
      ghost var cs := seq(|platforms|, i requires 0 <= i < |platforms|
                              reads if 0 <= i < |platforms| then {platforms[i]} else {}
                              reads if 0 <= i < |platforms| then platforms[i].maxResources.Values else {} =>
                            platforms[i].GetMaxResource("cores"));
      var maxPlatform := MostCores(platforms, cs);
      this.cores := cs;
      usePlatform := maxPlatform;
      used := map n | n in maxPlatform.maxResources :: 0;
      cmdType := None;
      depleted := false;
    }

    /** checkType: the first type is recorded and accepted; later ones must equal it. */
    method CheckType(t: String) returns (ok: bool)
      modifies this
      ensures old(cmdType).None? ==> ok && cmdType == Some(t)
      ensures old(cmdType).Some? ==> (ok <==> t == old(cmdType).value) && cmdType == old(cmdType)
      ensures used == old(used) && depleted == old(depleted)
    {
      if cmdType.None? {
        cmdType := Some(t);
        return true;
      }
      return t == cmdType.value;
    }

    /** getExecID: the executable on the platform used, else on the first platform that has it. */
    method GetExecID(cmd: Command) returns (r: Option<String>)
      ensures r == (if find(Query(cmd, usePlatform.name)).Some? then find(Query(cmd, usePlatform.name))
                    else FirstExecFrom(find, cmd, platforms, 0))
    {
      r := find(Query(cmd, usePlatform.name));
      if r.Some? {
        return;
      }
      for k := 0 to |platforms|
        invariant forall j :: 0 <= j < k ==> find(Query(cmd, platforms[j].name)).None?
      {
        r := find(Query(cmd, platforms[k].name));
        if r.Some? {
          assert FirstExecFrom(find, cmd, platforms, k) == r;
          FirstExecSkips(find, cmd, platforms, k);
          return;
        }
      }
      r := None;
    }

    /** checkWorkerRequirements: a worker dedicated to a project only takes that project's commands. */
    function CheckWorkerRequirements(task: TaskInfo): (ok: bool)
      ensures ok <==> ("project" !in workerReqs || task.project == workerReqs["project"])
    {
      if "project" in workerReqs then task.project == workerReqs["project"] else true
    }

    /** The amounts the allocation works from, read from the platform and the command. */
    function BudgetFor(cmd: Command): (b: Budget)
      reads this, usePlatform, usePlatform.maxResources.Values, usePlatform.prefResources.Values
      reads cmd, cmd.minRequired.Values, cmd.maxAllowed.Values
      requires Valid()
      ensures b.WellFormed() && b.used == used
    {
      Budget(Values(usePlatform.maxResources), Values(usePlatform.prefResources), used,
             Values(cmd.minRequired), Values(cmd.maxAllowed))
    }

    /**
     * checkAddResources: refuse (and mark the worker depleted) when some
     * resource has less left than the command's minimum; otherwise reserve
     * for every required resource and add the reservation to the use.
     */
    method CheckAddResources(cmd: Command) returns (ok: bool, ghost b: Budget)
      requires Valid() && cmd.Valid()
      modifies this, cmd
      ensures b == old(BudgetFor(cmd))
      ensures Valid() && cmd.Valid()
      ensures ok <==> b.Fits()
      ensures !ok ==> depleted && used == old(used) && cmd.reserved == old(cmd.reserved)
      ensures ok ==> used == b.UsedAfter() && (depleted <==> old(depleted) || b.Depletes())
      ensures ok ==> Values(cmd.reserved) == b.ReservedAfter()
      ensures ok ==> cmd.reserved.Keys == old(cmd.minRequired).Keys
      ensures ok ==> forall n :: n in cmd.reserved && n !in used ==> cmd.reserved[n] == old(cmd.minRequired)[n]
      ensures cmdType == old(cmdType)
      ensures cmd.minRequired == old(cmd.minRequired) && cmd.maxAllowed == old(cmd.maxAllowed)
      ensures cmd.running == old(cmd.running) && cmd.cputime == old(cmd.cputime)
    {
      var budget := BudgetFor(cmd);
      b := budget;
      ok := FitsAll(budget);
      if !ok {
        depleted := true;
        return;
      }
      var wasDepleted := depleted;
      var newUsed, capped := AddResources(budget, cmd);
      SetUse(newUsed, wasDepleted || capped);
    }

    /** Records the use after a reservation. */
    method SetUse(newUsed: map<String, int>, nowDepleted: bool)
      modifies this
      ensures used == newUsed && depleted == nowDepleted && cmdType == old(cmdType)
    {
      used, depleted := newUsed, nowDepleted;
    }
  }

  /** The reserving half of checkAddResources, once the command is known to fit. */
  method AddResources(b: Budget, cmd: Command) returns (used: map<String, int>, capped: bool)
    requires b.WellFormed() && cmd.Valid() && b.minv == Values(cmd.minRequired)
    modifies cmd
    ensures cmd.Valid() && used == b.UsedAfter() && capped == b.Depletes()
    ensures Values(cmd.reserved) == b.ReservedAfter()
    ensures used.Keys == b.used.Keys && cmd.reserved.Keys == old(cmd.minRequired).Keys
    ensures forall n :: n in cmd.reserved && n !in used ==> cmd.reserved[n] == old(cmd.minRequired)[n]
    ensures cmd.minRequired == old(cmd.minRequired) && cmd.maxAllowed == old(cmd.maxAllowed)
    ensures cmd.running == old(cmd.running) && cmd.cputime == old(cmd.cputime)
  {
    cmd.ResetReserved();
    used, capped := ReserveAll(b, cmd);
  }

  /** The constructor's loop: the first platform with the most cores, or the first platform when none lists cores. */
  method MostCores(platforms: seq<Platform>, ghost cs: seq<Option<int>>) returns (maxPlatform: Platform)
    requires |platforms| > 0 && |cs| == |platforms|
    requires forall i :: 0 <= i < |platforms| ==> cs[i] == platforms[i].GetMaxResource("cores")
    ensures maxPlatform == platforms[BestPlatform(cs)]
  {
    maxPlatform := platforms[0];
    var ncoresMax := 0;
    ghost var best: nat := 0;
    for k := 0 to |platforms|
      invariant (ncoresMax, best) == BestUpTo(cs, k)
      invariant maxPlatform == platforms[best]
    {
      var p := platforms[k];
      if p.HasMaxResource("cores") {
        var ncoresNow := p.GetMaxResource("cores").value;
        if ncoresNow > ncoresMax {
          ncoresMax := ncoresNow;
          maxPlatform := p;
          best := k;
        }
      }
    }
  }

  lemma {:induction false} FirstExecSkips(find: ExecQuery -> Option<String>, cmd: Command, ps: seq<Platform>, k: nat)
    requires k <= |ps|
    requires forall j :: 0 <= j < k ==> find(Query(cmd, ps[j].name)).None?
    ensures FirstExecFrom(find, cmd, ps, 0) == FirstExecFrom(find, cmd, ps, k)
    decreases k
  {
    if k > 0 {
      FirstExecSkips(find, cmd, ps, k - 1);
    }
  }

  /**
   * matchCommandWorker: (true, false) skips a command the worker cannot
   * run; (true, true) takes it; (false, false) stops the scan because the
   * command's resources do not fit.
   */
  method MatchCommandWorker(m: Matcher, cmd: Command) returns (cont: bool, use: bool)
    requires m.Valid() && cmd.Valid() && cmd.task.Some?
    modifies m, cmd
    ensures m.Valid() && cmd.Valid()
    ensures use ==> cont
    ensures var exec := if m.find(Query(cmd, m.usePlatform.name)).Some? then m.find(Query(cmd, m.usePlatform.name))
                        else FirstExecFrom(m.find, cmd, m.platforms, 0);
      var typeOk := old(m.cmdType).None? || old(m.cmdType) == Some(old(cmd.task).value.functionName);
      var eligible := exec.Some? && typeOk && m.CheckWorkerRequirements(old(cmd.task).value);
      var b := old(m.BudgetFor(cmd));
      (!eligible ==> cont && !use && m.used == old(m.used) && m.depleted == old(m.depleted)
                     && cmd.reserved == old(cmd.reserved))
      && (eligible ==> (use <==> b.Fits()) && (cont <==> use))
      && (eligible && b.Fits() ==> m.used == b.UsedAfter() && Values(cmd.reserved) == b.ReservedAfter()
                                   && (m.depleted <==> old(m.depleted) || b.Depletes()))
      && (eligible && !b.Fits() ==> m.depleted && m.used == old(m.used) && cmd.reserved == old(cmd.reserved))
      && (m.cmdType == if exec.Some? && old(m.cmdType).None? then Some(old(cmd.task).value.functionName)
                       else old(m.cmdType))
  {
    ghost var b0 := m.BudgetFor(cmd);
    cont := true;
    use := false;
    var execID := m.GetExecID(cmd);
    if execID.Some? {
      var typeOk := m.CheckType(cmd.task.value.functionName);
      use := typeOk && m.CheckWorkerRequirements(cmd.task.value);
    }
    assert m.BudgetFor(cmd) == b0;
    if use {
      ghost var t := m.cmdType;
      var fits, b := m.CheckAddResources(cmd);
      assert b == b0 && m.cmdType == t;
      cont, use := fits, fits;
    }
  }
}
