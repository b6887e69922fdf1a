/**
 * Configuration values and the configuration table
 * (cpc/util/conf/conf_base.py): a value with a default and an optional set
 * value checked against a pattern and a list of allowed values, paths
 * resolved through the `relTo` chain, the plugin path list, and the values
 * the configuration file records.
 */
module Configuration {
  import opened Wrappers
  import opened Text
  import opened Enumerations

  // ---------------------------------------------------------------- POSIX paths

  /** `os.path.isabs`. */
  predicate IsAbs(p: String) {
    |p| > 0 && p[0] == '/'
  }

  /** `os.path.join(a, b)`: b when b is absolute, otherwise b after a and a '/' if a needs one. */
  function PathJoin(a: String, b: String): (r: String)
    ensures IsAbs(b) ==> r == b
    ensures !IsAbs(b) ==> r == a + (if a == "" || a[|a| - 1] == '/' then "" else "/") + b
    ensures IsAbs(a) ==> IsAbs(r)
  {
    if IsAbs(b) then b
    else if a == "" || a[|a| - 1] == '/' then a + b
    else a + "/" + b
  }

  // ---------------------------------------------------------------- patterns

  /**
   * Python's `re.match(pattern, s)` for a pattern whose language is `lang`:
   * the match is anchored at the start of `s` but not at its end, so some
   * prefix of `s` must be in the language.
   */
  ghost predicate Matches(lang: String -> bool, s: String) {
    exists k :: 0 <= k <= |s| && PrefixIn(lang, s, k)
  }

  predicate PrefixIn(lang: String -> bool, s: String, k: nat)
    requires k <= |s|
  {
    lang(s[..k])
  }

  /** The regular expression engine's search for a matching prefix. */
  method ReMatch(lang: String -> bool, s: String) returns (m: bool)
    ensures m <==> Matches(lang, s)
  {
    m := false;
    for k := 0 to |s| + 1
      invariant m <==> exists j :: 0 <= j < k && PrefixIn(lang, s, j)
    {
      m := m || lang(s[..k]);
      assert PrefixIn(lang, s, k) == lang(s[..k]);
    }
  }

  /** A value that starts with a matching prefix matches whatever follows it. */
  lemma MatchesExtended(lang: String -> bool, s: String, t: String)
    requires Matches(lang, s)
    ensures Matches(lang, s + t)
  {
    var k :| 0 <= k <= |s| && PrefixIn(lang, s, k);
    assert (s + t)[..k] == s[..k];
    assert PrefixIn(lang, s + t, k);
  }

  // ---------------------------------------------------------------- values

  /** The errors raised: KeyError, the two InputErrors of set, ConfError, and a relTo cycle. */
  datatype Failure =
    | KeyError(key: String)
    | NoMatch(value: String)
    | NotAllowed(value: String)
    | NotUserSettable(name: String)
    | RelToCycle(name: String)

  class ConfValue {
    const name: String
    const defaultValue: String
    const description: String
    const userSettable: bool
    var setValue: Option<String>
    const relTo: Option<String>
    /** The language of the validation pattern, if there is one. */
    const validation: Option<String -> bool>
    const allowedValues: Option<seq<String>>

    constructor(name: String, defaultValue: String, description: String, userSettable: bool,
                relTo: Option<String>, validation: Option<String -> bool>, allowedValues: Option<seq<String>>)
      ensures this.name == name && this.defaultValue == defaultValue && this.description == description
      ensures this.userSettable == userSettable && this.relTo == relTo
      ensures this.validation == validation && this.allowedValues == allowedValues
      ensures setValue == None
    {
      this.name, this.defaultValue, this.description := name, defaultValue, description;
      this.userSettable, this.relTo := userSettable, relTo;
      this.validation, this.allowedValues := validation, allowedValues;
      setValue := None;
    }

    /** get: the set value when there is one, else the default. */
    function Get(): (r: String)
      reads this
      ensures setValue.Some? ==> r == setValue.value
      ensures setValue.None? ==> r == defaultValue
    {
      if setValue.Some? then setValue.value else defaultValue
    }

    /** hasSetValue: whether a value has been set; without one, get answers the default. */
    predicate HasSetValue()
      reads this
      ensures HasSetValue() <==> setValue.Some?
      ensures !HasSetValue() ==> Get() == defaultValue
    {
      setValue.Some?
    }

    /** The values set accepts: matching the pattern at the start, and one of the allowed values. */
    ghost predicate Accepts(v: String) {
      (validation.None? || Matches(validation.value, v))
      && (allowedValues.None? || v in allowedValues.value)
    }

    /**
     * set: a value the pattern or the allowed list refuses raises
     * InputError and changes nothing; otherwise it becomes the value.
     */
    method Set(newValue: String) returns (r: Result<(), Failure>)
      modifies this
      ensures r.Ok? <==> Accepts(newValue)
      ensures r.Ok? ==> HasSetValue() && Get() == newValue
      ensures r.Err? ==> setValue == old(setValue)
      ensures r.Err? ==> r.error == if validation.Some? && !Matches(validation.value, newValue) then NoMatch(newValue) else NotAllowed(newValue)
    {
      if validation.Some? {
        var m := ReMatch(validation.value, newValue);
        if !m {
          return Err(NoMatch(newValue));
        }
      }
      if allowedValues.Some? && newValue !in allowedValues.value {
        return Err(NotAllowed(newValue));
      }
      setValue := Some(newValue);
      return Ok(());
    }

    /** reset: back to the default value. */
    method Reset()
      modifies this
      ensures !HasSetValue() && Get() == defaultValue
    {
      setValue := None;
    }
  }

  // ---------------------------------------------------------------- plugin paths

  /** The stripped, non-empty entries of a split path list, in order. */
  function Cleaned(parts: seq<String>): (r: seq<String>)
    ensures |r| <= |parts|
  {
    if |parts| == 0 then []
    else
      var s := Strip(parts[|parts| - 1]);
      Cleaned(parts[..|parts| - 1]) + (if s != "" then [s] else [])
  }

  /** A path list entry as getPluginPaths keeps it: non-empty, no surrounding white space, no ':'. */
  predicate CleanEntry(d: String) {
    d != "" && Strip(d) == d && ':' !in d
  }

  lemma StripIdempotent(s: String)
    ensures Strip(Strip(s)) == Strip(s)
  {
    StripUnchanged(Strip(s));
  }

  /** Every entry kept is non-empty and stripped. */
  lemma {:induction false} CleanedEntries(parts: seq<String>)
    requires forall i :: 0 <= i < |parts| ==> ':' !in parts[i]
    ensures forall i :: 0 <= i < |Cleaned(parts)| ==> CleanEntry(Cleaned(parts)[i])
  {
    if |parts| > 0 {
      var init, last := parts[..|parts| - 1], parts[|parts| - 1];
      CleanedEntries(init);
      var s := Strip(last);
      StripIdempotent(last);
      assert s == StripRight(StripLeft(last));
      assert ':' !in s by {
        forall i | 0 <= i < |s| ensures s[i] != ':' {
          var l := StripLeft(last);
          assert s[i] == l[i];
          assert l[i] == last[|last| - |l| + i];
        }
      }
      var r := Cleaned(parts);
      forall i | 0 <= i < |r| ensures CleanEntry(r[i]) {
        if i < |Cleaned(init)| {
          assert r[i] == Cleaned(init)[i];
        }
      }
    }
  }

  /** Clean entries pass through unchanged. */
  lemma {:induction false} CleanedClean(dirs: seq<String>)
    requires forall i :: 0 <= i < |dirs| ==> CleanEntry(dirs[i])
    ensures Cleaned(dirs) == dirs
  {
    if |dirs| > 0 {
      var init, last := dirs[..|dirs| - 1], dirs[|dirs| - 1];
      CleanedClean(init);
      assert CleanEntry(last);
      CleanedSnoc(init, last);
      assert dirs == init + [last];
    }
  }

  lemma CleanedSnoc(init: seq<String>, last: String)
    ensures Cleaned(init + [last]) == Cleaned(init) + (if Strip(last) != "" then [Strip(last)] else [])
  {
    assert (init + [last])[..|init|] == init;
  }

  /** A ':'-joined list of clean entries is read back as the same list. */
  lemma PluginPathRoundTrip(dirs: seq<String>)
    requires forall i :: 0 <= i < |dirs| ==> CleanEntry(dirs[i])
    ensures Cleaned(Split(Join(dirs, ':'), ':')) == dirs
  {
    if |dirs| == 0 {
      EmptyPluginPath(dirs);
    } else {
      JoinSplit(dirs, ':');
      CleanedClean(dirs);
    }
  }

  /** An empty list joins to "", which reads back as no entries. */
  lemma EmptyPluginPath(dirs: seq<String>)
    requires dirs == []
    ensures Cleaned(Split(Join(dirs, ':'), ':')) == []
  {
    assert Split("", ':') == [""];
    assert Cleaned([""]) == Cleaned([]) + [];
  }

  /** os.path.join(execBasedir, 'cpc', 'plugins'). */
  function PluginDir(execBasedir: String): String {
    PathJoin(PathJoin(execBasedir, "cpc"), "plugins")
  }

  // ---------------------------------------------------------------- the table

  /** The first `n` names of the relTo chain starting at `cur`, as far as the table has them. */
  ghost function Chain(conf: map<String, ConfValue>, cur: Option<String>, n: nat): (r: seq<String>)
    reads conf.Values
    ensures |r| <= n && forall i :: 0 <= i < |r| ==> r[i] in conf
    decreases n
  {
    if n == 0 || cur.None? || cur.value !in conf then []
    else [cur.value] + Chain(conf, conf[cur.value].relTo, n - 1)
  }

  class Conf {
    var conf: map<String, ConfValue>
    const execBasedir: String

    /** Every value is stored under its own name. */
    ghost predicate Valid()
      reads this, conf.Values
    {
      forall n :: n in conf ==> conf[n].name == n
    }

    constructor(execBasedir: String)
      ensures conf == map[] && this.execBasedir == execBasedir && Valid()
    {
      conf := map[];
      this.execBasedir := execBasedir;
    }

    /** _add: a new value under `name`, replacing any earlier one. */
    method Add(name: String, defaultValue: String, desc: String, userSettable: bool,
               relTo: Option<String>, validation: Option<String -> bool>, allowedValues: Option<seq<String>>)
      modifies this
      requires Valid()
      ensures Valid()
      ensures conf.Keys == old(conf.Keys) + {name}
      ensures fresh(conf[name]) && conf[name].Get() == defaultValue && conf[name].relTo == relTo
      ensures conf[name].userSettable == userSettable && !conf[name].HasSetValue()
      ensures forall n :: n in old(conf) && n != name ==> conf[n] == old(conf[n])
    {
      var v := new ConfValue(name, defaultValue, desc, userSettable, relTo, validation, allowedValues);
      conf := conf[name := v];
    }

    /**
     * The path the walk of getFile reaches from `retpath` with `cur` still
     * to visit: each ancestor's value is joined in front; an unknown name
     * raises KeyError.  `fuel` bounds the walk: running out of it means
     * the chain repeats (CycleRepeats) and the source never returns.
     */
    ghost function Walk(retpath: String, cur: Option<String>, fuel: nat): Result<String, Failure>
      reads this, conf.Values
      decreases fuel
    {
      match cur
      case None => Ok(retpath)
      case Some(c) =>
        if c !in conf then Err(KeyError(c))
        else if fuel == 0 then Err(RelToCycle(c))
        else Walk(PathJoin(conf[c].Get(), retpath), conf[c].relTo, fuel - 1)
    }

    /** What getFile(name) returns, or the error it raises. */
    ghost function GetFileResult(name: String): Result<String, Failure>
      reads this, conf.Values
    {
      if name !in conf then Err(KeyError(name))
      else if IsAbs(conf[name].Get()) then Ok(conf[name].Get())
      else Walk(conf[name].Get(), conf[name].relTo, |conf|)
    }

    /** Once the path is absolute, the ancestors further up cannot change it. */
    lemma {:induction false} WalkKeepsAbsolute(retpath: String, cur: Option<String>, fuel: nat)
      requires IsAbs(retpath)
      ensures Walk(retpath, cur, fuel).Ok? ==> Walk(retpath, cur, fuel).value == retpath
      decreases fuel
    {
      if cur.Some? && cur.value in conf && fuel > 0 {
        WalkKeepsAbsolute(PathJoin(conf[cur.value].Get(), retpath), conf[cur.value].relTo, fuel - 1);
      }
    }

    /** An absolute ancestor makes the result absolute. */
    lemma {:induction false} WalkAbsoluteAncestor(retpath: String, cur: Option<String>, fuel: nat)
      requires cur.Some? && cur.value in conf && fuel > 0 && IsAbs(conf[cur.value].Get())
      ensures Walk(retpath, cur, fuel).Ok? ==> IsAbs(Walk(retpath, cur, fuel).value)
    {
      var p := PathJoin(conf[cur.value].Get(), retpath);
      WalkKeepsAbsolute(p, conf[cur.value].relTo, fuel - 1);
    }

    /** Running out of fuel means the relTo chain visits more names than the table holds. */
    lemma {:induction false} WalkCycle(retpath: String, cur: Option<String>, fuel: nat)
      requires Walk(retpath, cur, fuel).Err? && Walk(retpath, cur, fuel).error.RelToCycle?
      ensures |Chain(conf, cur, fuel + 1)| == fuel + 1
      decreases fuel
    {
      if fuel > 0 {
        WalkCycle(PathJoin(conf[cur.value].Get(), retpath), conf[cur.value].relTo, fuel - 1);
      }
    }

    /** A walk that runs out of fuel follows a relTo chain that returns to a name it visited. */
    lemma CycleRepeats(name: String)
      requires GetFileResult(name).Err? && GetFileResult(name).error.RelToCycle?
      ensures name in conf
      ensures HasRepeat(Chain(conf, conf[name].relTo, |conf| + 1))
    {
      var ch := Chain(conf, conf[name].relTo, |conf| + 1);
      WalkCycle(conf[name].Get(), conf[name].relTo, |conf|);
      Pigeonhole(ch, conf.Keys);
    }

    /**
     * getFile(name): an absolute value as it is; otherwise the value with
     * the values of its relTo ancestors joined in front, nearest first.
     */
    method GetFile(name: String) returns (r: Result<String, Failure>)
      ensures r == GetFileResult(name)
      ensures name in conf && IsAbs(conf[name].Get()) ==> r == Ok(conf[name].Get())
    {
      if name !in conf {
        return Err(KeyError(name));
      }
      var nameval := conf[name].Get();
      if IsAbs(nameval) {
        return Ok(nameval);
      }
      var retpath := nameval;
      var curRel := conf[name].relTo;
      var fuel: nat := |conf|;
      while curRel.Some?
        invariant Walk(retpath, curRel, fuel) == GetFileResult(name)
        decreases fuel
      {
        var c := curRel.value;
        if c !in conf {
          return Err(KeyError(c));
        }
        if fuel == 0 {
          return Err(RelToCycle(c));
        }
        retpath := PathJoin(conf[c].Get(), retpath);
        curRel := conf[c].relTo;
        fuel := fuel - 1;
      }
      return Ok(retpath);
    }

    /**
     * userSet(name, value): sets a user-settable value; any other value
     * raises ConfError and changes nothing.
     */
    method UserSet(name: String, value: String) returns (r: Result<(), Failure>)
      modifies if name in conf then {conf[name]} else {}
      ensures name !in conf ==> r == Err(KeyError(name))
      ensures name in conf && !conf[name].userSettable ==>
        r == Err(NotUserSettable(name)) && conf[name].setValue == old(conf[name].setValue)
      ensures name in conf && conf[name].userSettable ==>
        (r.Ok? <==> conf[name].Accepts(value))
        && (r.Ok? ==> conf[name].Get() == value)
        && (r.Err? ==> conf[name].setValue == old(conf[name].setValue))
    {
      if name !in conf {
        return Err(KeyError(name));
      }
      var v := conf[name];
      if v.userSettable {
        r := v.Set(value);
      } else {
        r := Err(NotUserSettable(name));
      }
    }

    /**
     * getPluginPaths: the non-empty entries of the ':'-separated
     * plugin_path value, stripped, then the plugin directory next to the
     * executable.
     */
    method GetPluginPaths() returns (r: Result<seq<String>, Failure>)
      ensures "plugin_path" !in conf ==> r == Err(KeyError("plugin_path"))
      ensures "plugin_path" in conf ==>
        r == Ok(Cleaned(Split(conf["plugin_path"].Get(), ':')) + [PluginDir(execBasedir)])
    {
      if "plugin_path" !in conf {
        return Err(KeyError("plugin_path"));
      }
      var lst := Split(conf["plugin_path"].Get(), ':');
      var retlist := [];
      for i := 0 to |lst|
        invariant retlist == Cleaned(lst[..i])
      {
        var str := Strip(lst[i]);
        if str != "" {
          retlist := retlist + [str];
        }
        assert lst[..i + 1][..i] == lst[..i];
      }
      assert lst[..|lst|] == lst;
      retlist := retlist + [PluginDir(execBasedir)];
      return Ok(retlist);
    }

    /**
     * The dictionary write serialises: name to value for exactly the
     * values that have been set.
     */
    method WrittenValues() returns (d: map<String, String>)
      requires Valid()
      ensures forall n :: n in d <==> n in conf && conf[n].HasSetValue()
      ensures forall n :: n in d ==> d[n] == conf[n].Get()
    {
      d := map[];
      var keys := conf.Keys;
      while keys != {}
        invariant keys <= conf.Keys
        invariant forall n :: n in d <==> n in conf && n !in keys && conf[n].HasSetValue()
        invariant forall n :: n in d ==> d[n] == conf[n].Get()
        decreases |keys|
      {
        var k :| k in keys;
        var cf := conf[k];
        if cf.HasSetValue() {
          d := d[cf.name := cf.Get()];
        }
        keys := keys - {k};
      }
    }
  }
}
