/**
 * The in-memory session cache: a dictionary from session id to a session
 * record holding the conversation so far. Sessions are created on first
 * use, messages are appended with a timestamp, the most recent messages can
 * be read back, and sessions idle for too long are swept away.
 */
module SessionStore {
  import opened Wrappers
  import opened PyText

  /** One message: `{"role", "content", "ts"}`. */
  datatype Message = Message(role: string, content: string, ts: int)

  /**
   * A session record. `updatedAt` is optional because a record loaded from
   * disk may lack it; records created here always carry it.
   */
  datatype Session = Session(sessionId: string, createdAt: int, updatedAt: Option<int>, messages: seq<Message>)

  /** One week in seconds, the default idle limit of `cleanup_sessions`. */
  const DefaultMaxAge: int := 60 * 60 * 24 * 7

  /** The default number of messages `get_recent_messages` returns. */
  const DefaultLimit: int := 10

  /**
   * The source of `int(time.time())`: every read returns the next of a fixed
   * series of whole seconds.
   */
  class Clock {
    const readings: nat -> int
    var ticks: nat

    constructor(readings: nat -> int)
      ensures this.readings == readings && ticks == 0
    {
      this.readings := readings;
      ticks := 0;
    }

    /** The reading `int(time.time())` returns now. */
    method Now() returns (t: int)
      modifies this
      ensures t == readings(old(ticks)) && ticks == old(ticks) + 1
    {
      t := readings(ticks);
      ticks := ticks + 1;
    }
  }

  /** A fresh session created from two clock reads. */
  function NewSession(id: string, created: int, updated: int): Session {
    Session(id, created, Some(updated), [])
  }

  /** `s` with one more message and the given update time. */
  function WithMessage(s: Session, m: Message, updated: int): (r: Session)
    ensures r.sessionId == s.sessionId && r.createdAt == s.createdAt && r.updatedAt == Some(updated)
    ensures |r.messages| == |s.messages| + 1 && r.messages[..|s.messages|] == s.messages
    ensures r.messages[|s.messages|] == m
  {
    var r := s.(messages := s.messages + [m], updatedAt := Some(updated));
    assert r.messages[..|s.messages|] == s.messages;
    r
  }

  /** Seconds since the last update; a session without an update time counts as updated now. */
  function IdleFor(s: Session, now: int): int {
    now - (match s.updatedAt case Some(t) => t case None => now)
  }

  predicate Expired(s: Session, now: int, maxAge: int) {
    IdleFor(s, now) > maxAge
  }

  /** The ids `cleanup_sessions` removes. */
  function ExpiredIds(m: map<string, Session>, now: int, maxAge: int): (ids: set<string>)
    ensures ids <= m.Keys
    ensures forall k :: k in m ==> (k in ids <==> Expired(m[k], now, maxAge))
  {
    set k | k in m && Expired(m[k], now, maxAge)
  }

  /** The cache after the sweep: the sessions that have not expired, unchanged. */
  function Sweep(m: map<string, Session>, now: int, maxAge: int): (r: map<string, Session>)
    ensures r.Keys == m.Keys - ExpiredIds(m, now, maxAge)
    ensures forall k :: k in r ==> r[k] == m[k]
  {
    map k | k in m && !Expired(m[k], now, maxAge) :: m[k]
  }

  /** `messages[-limit:]`. */
  function Recent(messages: seq<Message>, limit: int): seq<Message> {
    SliceFrom(messages, -limit)
  }

  function Elements(s: seq<string>): set<string> {
    set x | x in s
  }

  /** The module-level `_sessions` cache. */
  class Store {
    var sessions: map<string, Session>

    /** The cache starts empty. */
    constructor()
      ensures sessions == map[]
    {
      sessions := map[];
    }

    /** `get_or_create_session`: the cached session, or a new one stamped with two clock reads. */
    method GetOrCreateSession(id: string, clock: Clock) returns (s: Session)
      modifies this, clock
      ensures id in sessions && s == sessions[id]
      ensures id in old(sessions) ==>
        sessions == old(sessions) && s == old(sessions)[id] && clock.ticks == old(clock.ticks)
      ensures id !in old(sessions) ==>
        && s == NewSession(id, clock.readings(old(clock.ticks)), clock.readings(old(clock.ticks) + 1))
        && sessions == old(sessions)[id := s]
        && clock.ticks == old(clock.ticks) + 2
    {
      if id !in sessions {
        var created := clock.Now();
        var updated := clock.Now();
        sessions := sessions[id := NewSession(id, created, updated)];
      }
      s := sessions[id];
    }

    /** `append_message`: the message, stamped with the next clock read, joins the (possibly new) session, whose update time becomes the read after that. */
    method AppendMessage(id: string, role: string, content: string, clock: Clock)
      modifies this, clock
      ensures var t := old(clock.ticks);
        var created := id !in old(sessions);
        var base := if created then NewSession(id, clock.readings(t), clock.readings(t + 1)) else old(sessions)[id];
        var k := if created then t + 2 else t;
        && clock.ticks == k + 2
        && sessions == old(sessions)[id := WithMessage(base, Message(role, content, clock.readings(k)), clock.readings(k + 1))]
    {
      var sess := GetOrCreateSession(id, clock);
      var ts := clock.Now();
      var updated := clock.Now();
      sessions := sessions[id := WithMessage(sess, Message(role, content, ts), updated)];
    }

    /** `get_recent_messages`: `messages[-limit:]` of the (possibly new) session. */
    method GetRecentMessages(id: string, limit: int, clock: Clock) returns (msgs: seq<Message>)
      modifies this, clock
      ensures id in sessions
      ensures id in old(sessions) ==>
        && sessions == old(sessions) && clock.ticks == old(clock.ticks)
        && msgs == Recent(old(sessions)[id].messages, limit)
      ensures id !in old(sessions) ==>
        && sessions == old(sessions)[id := NewSession(id, clock.readings(old(clock.ticks)), clock.readings(old(clock.ticks) + 1))]
        && clock.ticks == old(clock.ticks) + 2
        && msgs == []
    {
      var sess := GetOrCreateSession(id, clock);
      msgs := SliceFrom(sess.messages, -limit);
    }

    /**
     * `cleanup_sessions`: one clock read, then every session idle for more
     * than `maxAge` seconds is collected and removed; returns how many were.
     */
    method CleanupSessions(maxAge: int, clock: Clock) returns (removed: nat)
      modifies this, clock
      ensures clock.ticks == old(clock.ticks) + 1
      ensures sessions == Sweep(old(sessions), clock.readings(old(clock.ticks)), maxAge)
      ensures removed == |ExpiredIds(old(sessions), clock.readings(old(clock.ticks)), maxAge)|
    {
      var now := clock.Now();
      var toDelete := CollectExpired(sessions, now, maxAge);
      ghost var before := sessions;
      for i := 0 to |toDelete|
        invariant sessions.Keys == before.Keys - Elements(toDelete[..i])
        invariant forall k :: k in sessions ==> sessions[k] == before[k]
        invariant clock.ticks == old(clock.ticks) + 1
      {
        assert Elements(toDelete[..i + 1]) == Elements(toDelete[..i]) + {toDelete[i]};
        sessions := sessions - {toDelete[i]};
      }
      assert toDelete[..|toDelete|] == toDelete;
      removed := |toDelete|;
    }
  }

  /** The first loop of `cleanup_sessions`: the ids of the expired sessions, each once. */
  method CollectExpired(m: map<string, Session>, now: int, maxAge: int) returns (toDelete: seq<string>)
    ensures Elements(toDelete) == ExpiredIds(m, now, maxAge)
    ensures |toDelete| == |ExpiredIds(m, now, maxAge)|
  {
    ghost var expired := ExpiredIds(m, now, maxAge);
    toDelete := [];
    var pending := m.Keys;
    ghost var seen: set<string> := {};
    while pending != {}
      invariant pending + seen == m.Keys && pending !! seen
      invariant Elements(toDelete) == expired * seen
      invariant |toDelete| == |Elements(toDelete)|
      decreases |pending|
    {
      var sid :| sid in pending;
      CollectStep(m, now, maxAge, seen, toDelete, sid);
      MoveOne(pending, seen, sid);
      if Expired(m[sid], now, maxAge) {
        toDelete := toDelete + [sid];
      }
      pending := pending - {sid};
      seen := seen + {sid};
    }
  }

  /** Visiting one more id keeps the collected ids equal to the expired ones among those visited. */
  lemma CollectStep(m: map<string, Session>, now: int, maxAge: int, seen: set<string>, toDelete: seq<string>, sid: string)
    requires sid in m && sid !in seen
    requires Elements(toDelete) == ExpiredIds(m, now, maxAge) * seen
    requires |toDelete| == |Elements(toDelete)|
    ensures var next := if Expired(m[sid], now, maxAge) then toDelete + [sid] else toDelete;
      && Elements(next) == ExpiredIds(m, now, maxAge) * (seen + {sid})
      && |next| == |Elements(next)|
  {
    if Expired(m[sid], now, maxAge) {
      ElementsAppend(toDelete, sid);
    }
  }

  /** Moving one id from the pending ids to the visited ones keeps their union and shrinks the pending ones. */
  lemma MoveOne(pending: set<string>, seen: set<string>, sid: string)
    requires sid in pending && pending !! seen
    ensures (pending - {sid}) + (seen + {sid}) == pending + seen
    ensures (pending - {sid}) !! (seen + {sid})
    ensures |pending - {sid}| < |pending|
  {
  }

  lemma ElementsAppend(s: seq<string>, x: string)
    requires x !in Elements(s)
    ensures Elements(s + [x]) == Elements(s) + {x}
    ensures |Elements(s + [x])| == |Elements(s)| + 1
  {
    assert Elements(s + [x]) == Elements(s) + {x};
  }

  /** For a positive limit, the recent messages are the last `limit` of them (all of them when there are fewer). */
  lemma RecentPositive(messages: seq<Message>, limit: int)
    requires limit > 0
    ensures var r := Recent(messages, limit);
      && |r| == Min(limit, |messages|)
      && r == messages[|messages| - |r|..]
  {
  }

  /** A limit of 0 returns every message: `-0` is `0`, so the slice is `messages[0:]`. */
  lemma RecentZero(messages: seq<Message>)
    ensures Recent(messages, 0) == messages
  {
  }

  /** A negative limit drops the first `-limit` messages instead. */
  lemma RecentNegative(messages: seq<Message>, limit: int)
    requires limit < 0
    ensures Recent(messages, limit) == if -limit <= |messages| then messages[-limit..] else []
  {
  }

  /** The sweep removes exactly the expired sessions and counts them: the cache shrinks by the number reported. */
  lemma SweepCount(m: map<string, Session>, now: int, maxAge: int)
    ensures |Sweep(m, now, maxAge).Keys| + |ExpiredIds(m, now, maxAge)| == |m.Keys|
  {
    var ex := ExpiredIds(m, now, maxAge);
    var kept := Sweep(m, now, maxAge).Keys;
    assert kept + ex == m.Keys;
    assert kept * ex == {};
  }

  /** Sweeping again at the same time with the same limit removes nothing more. */
  lemma SweepIdempotent(m: map<string, Session>, now: int, maxAge: int)
    ensures Sweep(Sweep(m, now, maxAge), now, maxAge) == Sweep(m, now, maxAge)
    ensures ExpiredIds(Sweep(m, now, maxAge), now, maxAge) == {}
  {
    var r := Sweep(m, now, maxAge);
    assert Sweep(r, now, maxAge).Keys == r.Keys;
  }

  /** A session without an update time is never removed, unless the limit is negative. */
  lemma NoUpdateTimeKept(m: map<string, Session>, id: string, now: int, maxAge: int)
    requires id in m && m[id].updatedAt == None && maxAge >= 0
    ensures id in Sweep(m, now, maxAge) && Sweep(m, now, maxAge)[id] == m[id]
  {
  }

  /** A larger idle limit keeps every session a smaller one keeps. */
  lemma SweepMonotone(m: map<string, Session>, now: int, a: int, b: int)
    requires a <= b
    ensures Sweep(m, now, a).Keys <= Sweep(m, now, b).Keys
    ensures ExpiredIds(m, now, b) <= ExpiredIds(m, now, a)
  {
  }

  /** With the default limit, the last ten messages are returned, or all of them when there are fewer. */
  lemma RecentDefault(messages: seq<Message>)
    ensures var r := Recent(messages, DefaultLimit);
      && |r| == Min(10, |messages|)
      && r == messages[|messages| - |r|..]
  {
    RecentPositive(messages, DefaultLimit);
  }

  /** With the default idle limit, a session updated within the last week is kept, unchanged. */
  lemma WeekOldKept(m: map<string, Session>, id: string, now: int, t: int)
    requires id in m && m[id].updatedAt == Some(t) && now - t <= 604800
    ensures id in Sweep(m, now, DefaultMaxAge) && Sweep(m, now, DefaultMaxAge)[id] == m[id]
  {
  }
}
