/**
 * A command handed to workers (cpc/server/command/command.py): its running
 * state, CPU-time and priority bookkeeping, and its three name-indexed
 * resource dictionaries (minimum required, maximum allowed, reserved).
 */
module Commands {
  import opened Wrappers
  import opened Text
  import opened Resources

  /** What a command reads from its task: the priority, the project name and the function name. */
  datatype TaskInfo = TaskInfo(priority: int, project: String, functionName: String)

  /** The reservations after joining: amounts added for shared names, the others kept. */
  function JoinValues(mine: map<String, int>, theirs: map<String, int>): (r: map<String, int>)
    ensures r.Keys == mine.Keys + theirs.Keys
    ensures forall n :: n in mine && n in theirs ==> r[n] == mine[n] + theirs[n]
    ensures forall n :: n in mine && n !in theirs ==> r[n] == mine[n]
    ensures forall n :: n !in mine && n in theirs ==> r[n] == theirs[n]
  {
    map n | n in mine.Keys + theirs.Keys ::
      if n in mine && n in theirs then mine[n] + theirs[n]
      else if n in mine then mine[n]
      else theirs[n]
  }

  /** Joining is symmetric in its two reservation lists. */
  lemma JoinValuesSymmetric(a: map<String, int>, b: map<String, int>)
    ensures JoinValues(a, b) == JoinValues(b, a)
  {
  }

  /** Joining an empty reservation list changes nothing. */
  lemma JoinValuesEmpty(a: map<String, int>)
    ensures JoinValues(a, map[]) == a
  {
  }

  /** The reservations once the names in `done` have been joined in. */
  function JoinedSoFar(mine: map<String, int>, theirs: map<String, int>, done: set<String>): (r: map<String, int>)
    requires done <= theirs.Keys
    ensures r.Keys == mine.Keys + done
  {
    map n | n in mine.Keys + done ::
      if n in mine && n in done then mine[n] + theirs[n]
      else if n in mine then mine[n]
      else theirs[n]
  }

  lemma JoinedSoFarStep(mine: map<String, int>, theirs: map<String, int>, done: set<String>, n: String)
    requires done <= theirs.Keys && n in theirs && n !in done
    ensures JoinedSoFar(mine, theirs, done + {n}) ==
      JoinedSoFar(mine, theirs, done)[n := if n in mine then mine[n] + theirs[n] else theirs[n]]
  {
  }

  lemma JoinedSoFarAll(mine: map<String, int>, theirs: map<String, int>)
    ensures JoinedSoFar(mine, theirs, theirs.Keys) == JoinValues(mine, theirs)
  {
  }

  /** One step of joinReserved: the entry for `n` of the other command's reservations. */
  method JoinOne(mine: map<String, Resource>, theirs: map<String, Resource>, n: String)
    returns (r: map<String, Resource>)
    requires KeyedByName(mine) && KeyedByName(theirs) && n in theirs
    modifies if n in mine then {mine[n]} else {}
    ensures KeyedByName(r) && r.Keys == mine.Keys + {n}
    ensures forall m :: m in mine ==> r[m] == mine[m]
    ensures n !in mine ==> r[n] == theirs[n]
    ensures Values(r) == old(Values(mine))[n := if n in mine then old(mine[n].value) + old(theirs[n].value)
                                                 else old(theirs[n].value)]
    ensures forall m :: m in theirs && m != n ==> theirs[m].value == old(theirs[m].value)
  {
    if n in mine {
      var _ := mine[n].Add(theirs[n]);
      r := mine;
    } else {
      r := mine[n := theirs[n]];
    }
  }

  /** JoinOne, stated against the values joined so far. */
  method JoinStep(mine: map<String, Resource>, theirs: map<String, Resource>, n: String,
                  ghost v0: map<String, int>, ghost w0: map<String, int>, ghost done: set<String>)
    returns (r: map<String, Resource>)
    requires KeyedByName(mine) && KeyedByName(theirs) && n in theirs
    requires done <= theirs.Keys && theirs.Keys <= w0.Keys && n !in done && mine.Keys == v0.Keys + done
    requires Values(mine) == JoinedSoFar(v0, w0, done) && theirs[n].value == w0[n]
    modifies if n in mine then {mine[n]} else {}
    ensures KeyedByName(r) && r.Keys == v0.Keys + (done + {n})
    ensures forall m :: m in mine ==> r[m] == mine[m]
    ensures n !in mine ==> r[n] == theirs[n]
    ensures Values(r) == JoinedSoFar(v0, w0, done + {n})
    ensures forall m :: m in theirs && m != n ==> theirs[m].value == old(theirs[m].value)
  {
    JoinedSoFarStep(v0, w0, done, n);
    ghost var before := Values(mine);
    assert n in mine <==> n in v0;
    ghost var joinedN := if n in v0 then v0[n] + w0[n] else w0[n];
    assert n in mine ==> mine[n].value == before[n] == v0[n];
    assert joinedN == if n in mine then mine[n].value + theirs[n].value else theirs[n].value;
    r := JoinOne(mine, theirs, n);
    assert Values(r) == before[n := joinedN];
  }

  /** joinReserved on the two dictionaries; returns this command's new reservations. */
  method JoinInto(mine: map<String, Resource>, theirs: map<String, Resource>)
    returns (r: map<String, Resource>)
    requires KeyedByName(mine) && KeyedByName(theirs)
    modifies mine.Values
    ensures KeyedByName(r) && r.Keys == mine.Keys + theirs.Keys
    ensures forall n :: n in mine ==> r[n] == mine[n]
    ensures forall n :: n in theirs && n !in mine ==> r[n] == theirs[n]
    ensures Values(r) == JoinValues(old(Values(mine)), old(Values(theirs)))
  {
    ghost var v0 := Values(mine);
    ghost var w0 := Values(theirs);
    r := mine;
    var todo := theirs.Keys;
    ghost var done: set<String> := {};
    while todo != {}
      invariant todo <= theirs.Keys && done == theirs.Keys - todo
      invariant KeyedByName(r) && r.Keys == mine.Keys + done
      invariant forall n :: n in mine ==> r[n] == mine[n]
      invariant forall n :: n in done && n !in mine ==> r[n] == theirs[n]
      invariant Values(r) == JoinedSoFar(v0, w0, done)
      invariant forall n :: n in todo ==> theirs[n].value == w0[n]
      decreases todo
    {
      var n :| n in todo;
      r := JoinStep(r, theirs, n, v0, w0, done);
      assert theirs.Keys - (todo - {n}) == done + {n};
      todo := todo - {n};
      done := done + {n};
    }
    assert done == theirs.Keys;
    JoinedSoFarAll(v0, w0);
  }

  class Command {
    const dir: String
    const executable: String
    var args: seq<String>
    const minVersion: Option<String>
    const maxVersion: Option<String>
    var id: Option<String>
    var task: Option<TaskInfo>
    var addPriority: int
    var running: bool
    var workerServer: Option<String>
    /** CPU seconds used. */
    var cputime: int
    var reserved: map<String, Resource>
    var minRequired: map<String, Resource>
    var maxAllowed: map<String, Resource>
    var env: Option<map<String, String>>
    var outputFiles: Option<seq<String>>

    /** Each resource dictionary is keyed by the names of the resources it holds. */
    ghost predicate Valid()
      reads this
    {
      KeyedByName(reserved) && KeyedByName(minRequired) && KeyedByName(maxAllowed)
    }

    /**
     * A new command needs one core and has no maximum and no reservation.
     * The `task` argument is not stored: the constructor sets the task to None.
     */
    constructor (dir: String, executable: String, args: seq<String>, addPriority: int,
                 minVersion: Option<String>, maxVersion: Option<String>, id: Option<String>,
                 task: Option<TaskInfo>, running: bool, workerServer: Option<String>,
                 env: Option<map<String, String>>, outputFiles: Option<seq<String>>)
      ensures Valid()
      ensures this.dir == dir && this.executable == executable && this.args == args
      ensures this.addPriority == addPriority && this.id == id && this.task == None
      ensures this.minVersion == minVersion && this.maxVersion == maxVersion
      ensures this.running == running && this.workerServer == workerServer
      ensures this.env == env && this.outputFiles == outputFiles && cputime == 0
      ensures reserved == map[] && maxAllowed == map[]
      ensures minRequired.Keys == {"cores"} && fresh(minRequired["cores"])
      ensures minRequired["cores"].value == 1
    {
      this.dir := dir;
      this.executable := executable;
      this.args := args;
      this.minVersion := minVersion;
      this.maxVersion := maxVersion;
      this.addPriority := addPriority;
      this.task := None;
      this.running := running;
      this.id := id;
      this.workerServer := workerServer;
      cputime := 0;
      reserved := map[];
      var cores := new Resource("cores", 1);
      minRequired := map[cores.name := cores];
      maxAllowed := map[];
      this.env := env;
      this.outputFiles := outputFiles;
    }

    method SetTask(task: TaskInfo)
      modifies this
      ensures this.task == Some(task)
      ensures args == old(args) && id == old(id) && addPriority == old(addPriority)
      ensures running == old(running) && workerServer == old(workerServer) && cputime == old(cputime)
      ensures reserved == old(reserved) && minRequired == old(minRequired) && maxAllowed == old(maxAllowed)
      ensures env == old(env) && outputFiles == old(outputFiles)
    {
      this.task := Some(task);
    }

    method AddArg(arg: String)
      modifies this
      ensures args == old(args) + [arg]
      ensures id == old(id) && task == old(task) && addPriority == old(addPriority)
      ensures running == old(running) && workerServer == old(workerServer) && cputime == old(cputime)
      ensures reserved == old(reserved) && minRequired == old(minRequired) && maxAllowed == old(maxAllowed)
      ensures env == old(env) && outputFiles == old(outputFiles)
    {
      args := args + [arg];
    }

    /** addEnv: the environment dictionary is created on first use, and the name is (re)bound. */
    method AddEnv(name: String, value: String)
      modifies this
      ensures env.Some? && env.value == old(env).GetOr(map[])[name := value]
      ensures args == old(args) && id == old(id) && task == old(task) && addPriority == old(addPriority)
      ensures running == old(running) && workerServer == old(workerServer) && cputime == old(cputime)
      ensures reserved == old(reserved) && minRequired == old(minRequired) && maxAllowed == old(maxAllowed)
      ensures outputFiles == old(outputFiles)
    {
      if env.None? {
        env := Some(map[]);
      }
      env := Some(env.value[name := value]);
    }

    /** addOutputFile: the list is created on first use and the name appended. */
    method AddOutputFile(filename: String)
      modifies this
      ensures outputFiles.Some? && outputFiles.value == old(outputFiles).GetOr([]) + [filename]
      ensures args == old(args) && id == old(id) && task == old(task) && addPriority == old(addPriority)
      ensures running == old(running) && workerServer == old(workerServer) && cputime == old(cputime)
      ensures reserved == old(reserved) && minRequired == old(minRequired) && maxAllowed == old(maxAllowed)
      ensures env == old(env)
    {
      if outputFiles.None? {
        outputFiles := Some([]);
      }
      outputFiles := Some(outputFiles.value + [filename]);
    }

    /** getWorkerServer: the worker's server is only reported while the command runs. */
    function GetWorkerServer(): (r: Option<String>)
      reads this
      ensures !running ==> r == None
      ensures running ==> r == workerServer
    {
      if running then workerServer else None
    }

    /** setRunning: stopping a command forgets its worker's server. */
    method SetRunning(running: bool, workerServer: Option<String>)
      modifies this
      ensures this.running == running
      ensures this.workerServer == (if running then workerServer else None)
      ensures GetWorkerServer() == (if running then workerServer else None)
      ensures args == old(args) && id == old(id) && task == old(task) && addPriority == old(addPriority)
      ensures cputime == old(cputime)
      ensures reserved == old(reserved) && minRequired == old(minRequired) && maxAllowed == old(maxAllowed)
      ensures env == old(env) && outputFiles == old(outputFiles)
    {
      this.running := running;
      if running {
        this.workerServer := workerServer;
      } else {
        this.workerServer := None;
      }
    }

    method AddCputime(cputime: int)
      modifies this
      ensures this.cputime == old(this.cputime) + cputime
      ensures args == old(args) && id == old(id) && task == old(task) && addPriority == old(addPriority)
      ensures running == old(running) && workerServer == old(workerServer)
      ensures reserved == old(reserved) && minRequired == old(minRequired) && maxAllowed == old(maxAllowed)
      ensures env == old(env) && outputFiles == old(outputFiles)
    {
      this.cputime := this.cputime + cputime;
    }

    method SetCputime(cputime: int)
      modifies this
      ensures this.cputime == cputime
      ensures args == old(args) && id == old(id) && task == old(task) && addPriority == old(addPriority)
      ensures running == old(running) && workerServer == old(workerServer)
      ensures reserved == old(reserved) && minRequired == old(minRequired) && maxAllowed == old(maxAllowed)
      ensures env == old(env) && outputFiles == old(outputFiles)
    {
      this.cputime := cputime;
    }

    method AddMinRequired(rsrc: Resource)
      requires Valid()
      modifies this
      ensures Valid() && minRequired == old(minRequired)[rsrc.name := rsrc]
      ensures reserved == old(reserved) && maxAllowed == old(maxAllowed)
      ensures args == old(args) && id == old(id) && task == old(task) && addPriority == old(addPriority)
      ensures running == old(running) && workerServer == old(workerServer) && cputime == old(cputime)
      ensures env == old(env) && outputFiles == old(outputFiles)
    {
      minRequired := minRequired[rsrc.name := rsrc];
    }

    function GetMinRequired(name: String): (r: Option<int>)
      reads this, minRequired.Values
      ensures r.Some? <==> name in minRequired
      ensures r.Some? ==> r.value == minRequired[name].value
    {
      Lookup(minRequired, name)
    }

    method AddMaxAllowed(rsrc: Resource)
      requires Valid()
      modifies this
      ensures Valid() && maxAllowed == old(maxAllowed)[rsrc.name := rsrc]
      ensures reserved == old(reserved) && minRequired == old(minRequired)
      ensures args == old(args) && id == old(id) && task == old(task) && addPriority == old(addPriority)
      ensures running == old(running) && workerServer == old(workerServer) && cputime == old(cputime)
      ensures env == old(env) && outputFiles == old(outputFiles)
    {
      maxAllowed := maxAllowed[rsrc.name := rsrc];
    }

    function GetMaxAllowed(name: String): (r: Option<int>)
      reads this, maxAllowed.Values
      ensures r.Some? <==> name in maxAllowed
      ensures r.Some? ==> r.value == maxAllowed[name].value
    {
      Lookup(maxAllowed, name)
    }

    /**
     * resetReserved: the reservation becomes a copy of the minimum
     * requirements; the copied entries are the very same resource objects.
     */
    method ResetReserved()
      requires Valid()
      modifies this
      ensures Valid() && reserved == old(minRequired)
      ensures Values(reserved) == old(Values(minRequired))
      ensures minRequired == old(minRequired) && maxAllowed == old(maxAllowed)
      ensures args == old(args) && id == old(id) && task == old(task) && addPriority == old(addPriority)
      ensures running == old(running) && workerServer == old(workerServer) && cputime == old(cputime)
      ensures env == old(env) && outputFiles == old(outputFiles)
    {
      var r: map<String, Resource> := map[];
      var todo := minRequired.Keys;
      while todo != {}
        invariant todo <= minRequired.Keys
        invariant r.Keys == minRequired.Keys - todo
        invariant forall n :: n in r ==> r[n] == minRequired[n]
        decreases todo
      {
        var n :| n in todo;
        r := r[n := minRequired[n]];
        todo := todo - {n};
      }
      reserved := r;
    }

    method AddReserved(rsrc: Resource)
      requires Valid()
      modifies this
      ensures Valid() && reserved == old(reserved)[rsrc.name := rsrc]
      ensures minRequired == old(minRequired) && maxAllowed == old(maxAllowed)
      ensures args == old(args) && id == old(id) && task == old(task) && addPriority == old(addPriority)
      ensures running == old(running) && workerServer == old(workerServer) && cputime == old(cputime)
      ensures env == old(env) && outputFiles == old(outputFiles)
    {
      reserved := reserved[rsrc.name := rsrc];
    }

    /** setReserved: a fresh resource object with this value replaces the entry. */
    method SetReserved(name: String, value: int)
      requires Valid()
      modifies this
      ensures Valid() && reserved.Keys == old(reserved).Keys + {name}
      ensures fresh(reserved[name]) && reserved[name].value == value
      ensures Values(reserved) == old(Values(reserved))[name := value]
      ensures forall n :: n in old(reserved) && n != name ==> reserved[n] == old(reserved)[n]
      ensures minRequired == old(minRequired) && maxAllowed == old(maxAllowed)
      ensures args == old(args) && id == old(id) && task == old(task) && addPriority == old(addPriority)
      ensures running == old(running) && workerServer == old(workerServer) && cputime == old(cputime)
      ensures env == old(env) && outputFiles == old(outputFiles)
    {
      var rsrc := new Resource(name, value);
      reserved := reserved[name := rsrc];
    }

    function GetReserved(name: String): (r: Option<int>)
      reads this, reserved.Values
      ensures r.Some? <==> name in reserved
      ensures r.Some? ==> r.value == reserved[name].value
    {
      Lookup(reserved, name)
    }

    /** hasReserved: whether a reservation is held under the name, that is, whether getReserved finds one. */
    predicate HasReserved(name: String)
      reads this, reserved.Values
      ensures HasReserved(name) <==> GetReserved(name).Some?
    {
      name in reserved
    }

    /**
     * joinReserved: for a name both hold, the other command's amount is
     * added into this command's resource object; for a name only the other
     * holds, its resource object itself is adopted.
     */
    method JoinReserved(other: Command)
      requires Valid() && other.Valid()
      modifies this, reserved.Values
      ensures Valid()
      ensures reserved.Keys == old(reserved.Keys) + old(other.reserved.Keys)
      ensures forall n :: n in old(reserved) ==> reserved[n] == old(reserved[n])
      ensures forall n :: n in old(other.reserved) && n !in old(reserved) ==>
                reserved[n] == old(other.reserved[n])
      ensures Values(reserved) == JoinValues(old(Values(reserved)), old(Values(other.reserved)))
      ensures minRequired == old(minRequired) && maxAllowed == old(maxAllowed)
      ensures args == old(args) && id == old(id) && task == old(task) && addPriority == old(addPriority)
      ensures running == old(running) && workerServer == old(workerServer) && cputime == old(cputime)
      ensures env == old(env) && outputFiles == old(outputFiles)
    {
      reserved := JoinInto(reserved, other.reserved);
    }

    /** getFullPriority: the task's priority plus the added priority; None when there is no task. */
    function GetFullPriority(): (r: Option<int>)
      reads this
      ensures r.Some? <==> task.Some?
      ensures r.Some? ==> r.value - addPriority == task.value.priority
    {
      match task
      case Some(t) => Some(t.priority + addPriority)
      case None => None
    }

    /** increasePriority: the full priority goes up by exactly one. */
    method IncreasePriority()
      modifies this
      ensures addPriority == old(addPriority) + 1
      ensures args == old(args) && id == old(id) && task == old(task)
      ensures running == old(running) && workerServer == old(workerServer) && cputime == old(cputime)
      ensures env == old(env) && outputFiles == old(outputFiles)
      ensures old(GetFullPriority()).Some? ==> GetFullPriority() == Some(old(GetFullPriority()).value + 1)
      ensures reserved == old(reserved) && minRequired == old(minRequired) && maxAllowed == old(maxAllowed)
    {
      addPriority := addPriority + 1;
    }
  }
}
