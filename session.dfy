/**
 * Client sessions of the server (cpc/server/state/session.py): a session
 * holds a dictionary of values for one uid, and the handler keeps one
 * session per uid.
 */
module Sessions {
  import opened Wrappers
  import opened Text

  class Session<V> {
    const uid: String
    var data: map<String, V>
    /** int(time.time()) at creation, passed in as `now`. */
    const createTimestamp: int

    constructor(uid: String, now: int)
      ensures this.uid == uid && data == map[] && createTimestamp == now
    {
      this.uid, createTimestamp := uid, now;
      data := map[];
    }

    /** `key in session`: exactly when `session[key]` does not raise. */
    predicate Contains(key: String)
      reads this
      ensures Contains(key) <==> GetItem(key).Some?
    {
      key in data
    }

    /** `session[key]`: raises KeyError (None here) for a missing key. */
    function GetItem(key: String): (r: Option<V>)
      reads this
      ensures r.Some? <==> key in data
      ensures r.Some? ==> r.value == data[key]
    {
      if key in data then Some(data[key]) else None
    }

    /** get(key, default): the stored value, or `default` when the key is absent. */
    function Get(key: String, default: V): (r: V)
      reads this
      ensures key in data ==> r == data[key]
      ensures key !in data ==> r == default
    {
      if key in data then data[key] else default
    }

    /** set(key, value) and `session[key] = value`. */
    method Set(key: String, value: V)
      modifies this
      ensures data == old(data)[key := value]
      ensures forall d :: Get(key, d) == value
    {
      data := data[key := value];
    }

    /** `del session[key]`: raises KeyError for a missing key and changes nothing. */
    method DelItem(key: String) returns (ok: bool)
      modifies this
      ensures ok <==> key in old(data)
      ensures data == old(data) - {key}
      ensures !Contains(key)
    {
      ok := key in data;
      if ok {
        data := data - {key};
      }
    }

    /** reset: the session holds nothing afterwards. */
    method Reset()
      modifies this
      ensures data == map[]
      ensures forall k, d :: Get(k, d) == d
    {
      data := map[];
    }
  }

  class SessionHandler<V> {
    var sessions: map<String, Session<V>>

    constructor()
      ensures sessions == map[]
    {
      sessions := map[];
    }

    /**
     * getSession(uid, auto_create): the existing session; otherwise None,
     * or a new session when `autoCreate` holds.
     */
    method GetSession(uid: String, autoCreate: bool, now: int) returns (r: Option<Session<V>>)
      modifies this
      ensures uid in old(sessions) ==> r == Some(old(sessions)[uid]) && sessions == old(sessions)
      ensures uid !in old(sessions) && !autoCreate ==> r == None && sessions == old(sessions)
      ensures uid !in old(sessions) && autoCreate ==>
        r.Some? && fresh(r.value) && r.value.data == map[] && r.value.uid == uid && r.value.createTimestamp == now
        && sessions == old(sessions)[uid := r.value]
    {
      if uid in sessions {
        return Some(sessions[uid]);
      }
      if !autoCreate {
        return None;
      }
      var s := CreateSession(uid, now);
      return Some(s);
    }

    /** createSession(uid): a new empty session, installed under `uid` in place of any earlier one. */
    method CreateSession(uid: String, now: int) returns (s: Session<V>)
      modifies this
      ensures fresh(s) && s.uid == uid && s.data == map[] && s.createTimestamp == now
      ensures sessions == old(sessions)[uid := s]
    {
      s := new Session(uid, now);
      sessions := sessions[uid := s];
    }
  }
}
