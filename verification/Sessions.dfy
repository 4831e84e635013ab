/** Session expiry: the absolute limit, the idle limit refreshed at most once a minute, and
    revocation. Times are in milliseconds. */
module Sessions {
  import opened Wrappers

  const REFRESH := 60_000

  /** How long a session may last, and how long it may lie idle. */
  datatype Config = Config(absolute: int, idle: int) {
    predicate Valid() { absolute > 0 && idle > 0 }
  }

  datatype Session = Session(
    user: nat, token: string, lastSeenAt: int, idleExpiresAt: int, absoluteExpiresAt: int, revokedAt: Option<int>)

  /** The stored sessions by row id, and which users are enabled. */
  datatype Db = Db(sessions: map<nat, Session>, enabled: map<nat, bool>, nextId: nat)

  function CreateSession(c: Config, db: Db, user: nat, token: string, now: int): Db {
    db.(sessions := db.sessions[db.nextId := Session(user, token, now, now + c.idle, now + c.absolute, None)],
        nextId := db.nextId + 1)
  }

  function Revoked(s: Session, now: int): Session {
    if s.revokedAt.None? then s.(revokedAt := Some(now)) else s
  }

  function Min(a: int, b: int): int { if a < b then a else b }

  /** A use refreshes the row only when the last refresh is a minute old. */
  function Refreshed(c: Config, s: Session, now: int): Session {
    if now - s.lastSeenAt >= REFRESH then
      s.(lastSeenAt := now, idleExpiresAt := Min(s.absoluteExpiresAt, now + c.idle))
    else s
  }

  predicate IsEnabled(db: Db, user: nat) { user in db.enabled && db.enabled[user] }

  predicate Expired(s: Session, now: int) { s.idleExpiresAt <= now || s.absoluteExpiresAt <= now }

  predicate Open(db: Db, id: nat) {
    id in db.sessions && db.sessions[id].revokedAt.None? && IsEnabled(db, db.sessions[id].user)
  }

  /** findActiveSession for the session whose token is presented: the new rows, and whether it is
      accepted. */
  function Use(c: Config, db: Db, id: nat, now: int): (Db, bool) {
    if !Open(db, id) then (db, false)
    else
      var s := db.sessions[id];
      if Expired(s, now) then (db.(sessions := db.sessions[id := Revoked(s, now)]), false)
      else (db.(sessions := db.sessions[id := Refreshed(c, s, now)]), true)
  }

  /** The statements that revoke: one session, all of a user's but one, or all there are. */
  datatype Revocation = One(id: nat) | OfUser(user: nat, exceptId: Option<nat>) | Everything

  predicate Covers(r: Revocation, id: nat, s: Session) {
    match r
    case One(i) => i == id
    case OfUser(user, exceptId) => s.user == user && exceptId != Some(id)
    case Everything => true
  }

  function Revoke(db: Db, r: Revocation, now: int): Db {
    db.(sessions := map id | id in db.sessions ::
          if Covers(r, id, db.sessions[id]) then Revoked(db.sessions[id], now) else db.sessions[id])
  }

  /** The tables as the service changes them. */
  class Store {
    const c: Config
    var db: Db

    constructor (c: Config, db: Db)
      ensures this.c == c && this.db == db
    {
      this.c, this.db := c, db;
    }

    method Create(user: nat, token: string, now: int) returns (id: nat)
      modifies this`db
      ensures db == CreateSession(c, old(db), user, token, now) && id == old(db).nextId
    {
      id := db.nextId;
      var row := Session(user, token, now, now + c.idle, now + c.absolute, None);
      db := db.(sessions := db.sessions[id := row], nextId := id + 1);
    }

    /** True when this call revoked it. */
    method RevokeSession(id: nat, now: int) returns (changed: bool)
      modifies this`db
      ensures db == Revoke(old(db), One(id), now)
      ensures changed <==> id in old(db).sessions && old(db).sessions[id].revokedAt.None?
    {
      changed := id in db.sessions && db.sessions[id].revokedAt.None?;
      var sessions := if changed then db.sessions[id := db.sessions[id].(revokedAt := Some(now))] else db.sessions;
      assert sessions == Revoke(db, One(id), now).sessions;
      db := db.(sessions := sessions);
    }

    /** All sessions of a user but one, or of everyone; the result is how many changed. */
    method RevokeMany(r: Revocation, now: int) returns (changes: nat)
      modifies this`db
      ensures db == Revoke(old(db), r, now)
      ensures changes == |set id | id in old(db).sessions && Covers(r, id, old(db).sessions[id])
                                    && old(db).sessions[id].revokedAt.None?|
    {
      var open := set id | id in db.sessions && Covers(r, id, db.sessions[id]) && db.sessions[id].revokedAt.None?;
      changes := |open|;
      var sessions := map id | id in db.sessions ::
        if id in open then db.sessions[id].(revokedAt := Some(now)) else db.sessions[id];
      assert sessions == Revoke(db, r, now).sessions;
      db := db.(sessions := sessions);
    }

    method FindActiveSession(id: nat, now: int) returns (accepted: bool)
      modifies this`db
      ensures (db, accepted) == Use(c, old(db), id, now)
    {
      if id !in db.sessions { return false; }
      var row := db.sessions[id];
      if row.revokedAt.Some? || !IsEnabled(db, row.user) { return false; }
      if row.idleExpiresAt <= now || row.absoluteExpiresAt <= now {
        db := db.(sessions := db.sessions[id := row.(revokedAt := Some(now))]);
        return false;
      }
      if now - row.lastSeenAt >= REFRESH {
        var nextIdle := Min(row.absoluteExpiresAt, now + c.idle);
        row := row.(lastSeenAt := now, idleExpiresAt := nextIdle);
      }
      db := db.(sessions := db.sessions[id := row]);
      accepted := true;
    }
  }

  // ----- Runs -----

  datatype Event =
    | Create(user: nat, token: string, at: int)
    | Present(id: nat, at: int)
    | Withdraw(revocation: Revocation, at: int)
    | SetEnabled(user: nat, on: bool, at: int)
    | Forget(ids: set<nat>, at: int)

  /** `born` and `used` are when each session was created and last accepted; `withdrawn` are the
      sessions ever revoked. */
  datatype State = State(db: Db, clock: int, born: map<nat, int>, used: map<nat, int>, withdrawn: set<nat>)

  /** Retention forgets only sessions that are over. */
  predicate Enabled(s: State, e: Event) {
    && s.clock <= e.at
    && (e.Forget? ==> forall id :: id in e.ids && id in s.db.sessions ==>
          s.db.sessions[id].revokedAt.Some? || s.db.sessions[id].absoluteExpiresAt < e.at)
  }

  function Withdrawn(db: Db, r: Revocation): set<nat> {
    set id | id in db.sessions && Covers(r, id, db.sessions[id])
  }

  function Next(c: Config, s: State, e: Event): State {
    match e
    case Create(user, token, at) =>
      s.(db := CreateSession(c, s.db, user, token, at), clock := at,
         born := s.born[s.db.nextId := at], used := s.used[s.db.nextId := at])
    case Present(id, at) =>
      var (db', accepted) := Use(c, s.db, id, at);
      s.(db := db', clock := at, used := if accepted then s.used[id := at] else s.used)
    case Withdraw(r, at) =>
      s.(db := Revoke(s.db, r, at), clock := at, withdrawn := s.withdrawn + Withdrawn(s.db, r))
    case SetEnabled(user, on, at) =>
      s.(db := s.db.(enabled := s.db.enabled[user := on]), clock := at)
    case Forget(ids, at) =>
      s.(db := s.db.(sessions := s.db.sessions - ids), clock := at)
  }

  /** What is known of a stored session: its refresh lags its last use by less than a minute. */
  ghost predicate SessionOk(c: Config, s: State, id: nat)
    requires id in s.db.sessions
  {
    var row := s.db.sessions[id];
    && id < s.db.nextId && id in s.born && id in s.used
    && s.born[id] <= row.lastSeenAt <= s.used[id] <= s.clock
    && s.used[id] < row.lastSeenAt + REFRESH
    && row.absoluteExpiresAt == s.born[id] + c.absolute
    && (row.idleExpiresAt == row.lastSeenAt + c.idle
        || (row.idleExpiresAt == row.absoluteExpiresAt && row.absoluteExpiresAt <= row.lastSeenAt + c.idle))
    && (id in s.withdrawn ==> row.revokedAt.Some?)
  }

  ghost predicate Inv(c: Config, s: State) {
    && (forall id :: id in s.db.sessions ==> SessionOk(c, s, id))
    && (forall id :: id in s.withdrawn ==> id < s.db.nextId)
  }

  ghost predicate IsRun(c: Config, states: seq<State>, events: seq<Event>) {
    && |states| == |events| + 1
    && states[0].db.sessions == map[] && states[0].withdrawn == {}
    && forall k {:trigger events[k]} :: 0 <= k < |events| ==>
         Enabled(states[k], events[k]) && states[k + 1] == Next(c, states[k], events[k])
  }

  lemma StepKeepsInv(c: Config, s: State, e: Event)
    requires c.Valid() && Inv(c, s) && Enabled(s, e)
    ensures Inv(c, Next(c, s, e))
  {
    var s' := Next(c, s, e);
    forall id | id in s'.db.sessions ensures SessionOk(c, s', id) {
      assert id in s.db.sessions ==> SessionOk(c, s, id);
    }
  }

  lemma {:induction false} RunKeepsInv(c: Config, states: seq<State>, events: seq<Event>, k: nat)
    requires c.Valid() && IsRun(c, states, events) && k <= |events|
    ensures Inv(c, states[k])
  {
    if k > 0 {
      RunKeepsInv(c, states, events, k - 1);
      assert states[k - 1 + 1] == Next(c, states[k - 1], events[k - 1]);
      StepKeepsInv(c, states[k - 1], events[k - 1]);
    }
  }

  predicate Accepts(c: Config, s: State, id: nat, at: int) { Use(c, s.db, id, at).1 }

  /** At any point of any run, an accepted use is before the absolute limit, less than the idle
      limit after the last accepted use, and of a session never revoked. */
  lemma AcceptedIsInLimits(c: Config, states: seq<State>, events: seq<Event>, k: nat, id: nat, at: int)
    requires c.Valid() && IsRun(c, states, events) && k <= |events| && states[k].clock <= at
    requires Accepts(c, states[k], id, at)
    ensures id in states[k].born && id in states[k].used
    ensures at < states[k].born[id] + c.absolute && at - states[k].used[id] < c.idle && id !in states[k].withdrawn
  {
    RunKeepsInv(c, states, events, k);
    assert SessionOk(c, states[k], id);
  }

  /** And a use is always accepted when its session is open, before the absolute limit, and at most
      the idle limit less a minute after the last accepted use. */
  lemma TimelyIsAccepted(c: Config, states: seq<State>, events: seq<Event>, k: nat, id: nat, at: int)
    requires c.Valid() && IsRun(c, states, events) && k <= |events| && states[k].clock <= at
    requires Open(states[k].db, id) && id in states[k].born && id in states[k].used
    requires at < states[k].born[id] + c.absolute && at - states[k].used[id] <= c.idle - REFRESH
    ensures Accepts(c, states[k], id, at)
  {
    RunKeepsInv(c, states, events, k);
    assert SessionOk(c, states[k], id);
  }

  /** Exactly when a use is accepted: within the idle limit of the last refresh. */
  lemma AcceptanceExactly(c: Config, states: seq<State>, events: seq<Event>, k: nat, id: nat, at: int)
    requires c.Valid() && IsRun(c, states, events) && k <= |events| && states[k].clock <= at
    ensures Accepts(c, states[k], id, at) <==>
              && Open(states[k].db, id) && id in states[k].born && at < states[k].born[id] + c.absolute
              && at - states[k].db.sessions[id].lastSeenAt < c.idle
  {
    RunKeepsInv(c, states, events, k);
    assert id in states[k].db.sessions ==> SessionOk(c, states[k], id);
  }

  lemma {:induction false} WithdrawnStays(c: Config, states: seq<State>, events: seq<Event>, j: nat, k: nat)
    requires IsRun(c, states, events) && j <= k <= |events|
    ensures states[j].withdrawn <= states[k].withdrawn
  {
    if j < k {
      WithdrawnStays(c, states, events, j, k - 1);
      assert states[k - 1 + 1] == Next(c, states[k - 1], events[k - 1]);
    }
  }

  /** Once a revocation has covered a session it is never accepted again. */
  lemma RevokedIsNeverAccepted(c: Config, states: seq<State>, events: seq<Event>, j: nat, k: nat, id: nat, at: int)
    requires c.Valid() && IsRun(c, states, events) && j < k <= |events| && states[k].clock <= at
    requires events[j].Withdraw? && id in states[j].db.sessions
    requires Covers(events[j].revocation, id, states[j].db.sessions[id])
    ensures !Accepts(c, states[k], id, at)
  {
    assert states[j + 1] == Next(c, states[j], events[j]);
    WithdrawnStays(c, states, events, j + 1, k);
    if Accepts(c, states[k], id, at) {
      AcceptedIsInLimits(c, states, events, k, id, at);
    }
  }

  /** The minute's throttle is paid for out of the idle limit: a session used just before the
      minute is up, and again when its idle limit has run from its creation, is refused, although
      that is less than the idle limit after its last use. */
  lemma ThrottleShortensIdle(c: Config, db: Db, user: nat, token: string, at: int)
    requires c.idle > REFRESH && c.absolute > c.idle && IsEnabled(db, user)
    ensures var id, created := db.nextId, CreateSession(c, db, user, token, at);
      var used := Use(c, created, id, at + REFRESH - 1);
      used.1 && !Use(c, used.0, id, at + c.idle).1
  {
  }
}
