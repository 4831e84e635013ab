/** Recording relayed heartbeats: overlapping polls, replays and retention pruning, and why
    each signed heartbeat is still recorded exactly once. */
module RelayDatabase {
  import opened Wrappers
  import opened RelayWire
  import opened Text

  /** An external job; `key` is the stored hash of its ingest token, which signs its heartbeats. */
  datatype Job = Job(id: nat, key: string)

  datatype Row = Row(job: nat, reportedAt: int, sourceRef: Option<string>)

  /** `jobs` by slug; `runs` by row id, handed out in order and never reused. */
  datatype Db = Db(jobs: map<string, Job>, runs: map<nat, Row>, nextRun: nat, nextJob: nat)

  /** The keyed hash, with its result in lower-case hex, and how numbers are written. `signings`
      are the keys and payloads that are hashed over a run. */
  datatype Crypto = Crypto(numbers: Numbers, hmac: (string, string) -> string, signings: set<(string, string)>) {
    /** No two different signings of the run collide. */
    ghost predicate Ideal() {
      && numbers.Faithful()
      && forall s, s' :: s in signings && s' in signings && hmac(s.0, s.1) == hmac(s'.0, s'.1) ==> s == s'
    }

    predicate Signs(key: string, f: Fields) {
      f.ts.Some? ==> (key, SigningPayload(numbers, f)) in signings
    }
  }

  const MAX_AGE := 900
  const DAY := 86400

  // ----- Recording -----

  datatype Verdict = UnknownJob | BadTimestamp | Stale | BadSignature | Duplicate | Recorded

  predicate Seen(db: Db, ref: string) {
    exists id :: id in db.runs && db.runs[id].sourceRef == Some(ref)
  }

  /** The reference as stored: absent when empty, cut to 128 characters. */
  function StoredRef(ref: string): Option<string> {
    if ref == "" then None else Some(if |ref| > 128 then ref[..128] else ref)
  }

  /** insertHeartbeat: a message already on record is not recorded again. */
  function Insert(db: Db, job: Job, sourceRef: string, at: int): (Db, bool) {
    var ref := StoredRef(sourceRef);
    if ref.Some? && Seen(db, ref.value) then (db, true)
    else (db.(runs := db.runs[db.nextRun := Row(job.id, at, ref)], nextRun := db.nextRun + 1), false)
  }

  predicate IsHexDigit(c: char) {
    '0' <= c <= '9' || 'a' <= c <= 'f' || 'A' <= c <= 'F'
  }

  /** Exactly 64 hex digits, in either case. */
  predicate SignatureMatches(expected: string, candidate: string) {
    |candidate| == 64 && (forall i :: 0 <= i < |candidate| ==> IsHexDigit(candidate[i])) && Lower(candidate) == expected
  }

  function Ref(c: Crypto, key: string, f: Fields): string
    requires f.ts.Some?
  {
    "relay:" + c.hmac(key, SigningPayload(c.numbers, f))
  }

  predicate Fresh(ts: Num, now: int) {
    -(MAX_AGE as real) <= now as real - ts <= MAX_AGE as real
  }

  /** Everything recordRelayedHeartbeat checks before it records. */
  function Check(c: Crypto, db: Db, f: Fields, now: int): Option<Verdict> {
    var slug := NormaliseSlug(f.slug);
    if slug !in db.jobs then Some(UnknownJob)
    else if f.ts.None? then Some(BadTimestamp)
    else if !Fresh(f.ts.value, now) then Some(Stale)
    else if !SignatureMatches(c.hmac(db.jobs[slug].key, SigningPayload(c.numbers, f)), f.signature)
      then Some(BadSignature)
    else None
  }

  /** `now` is the clock of the poll, `at` that of the database when the row is written. */
  function Record(c: Crypto, db: Db, f: Fields, now: int, at: int): (Db, Verdict) {
    var refused := Check(c, db, f, now);
    if refused.Some? then (db, refused.value)
    else
      var job := db.jobs[NormaliseSlug(f.slug)];
      var (db', duplicate) := Insert(db, job, Ref(c, job.key, f), at);
      (db', if duplicate then Duplicate else Recorded)
  }

  function RecordAll(c: Crypto, db: Db, body: seq<Fields>, now: int, at: int): Db {
    if body == [] then db
    else Record(c, RecordAll(c, db, body[..|body| - 1], now, at), body[|body| - 1], now, at).0
  }

  ghost predicate IdsBelow(db: Db) {
    forall id :: id in db.runs ==> id < db.nextRun
  }

  /** Recording adds one row, and only then reports it. */
  lemma RecordCounts(c: Crypto, db: Db, f: Fields, now: int, at: int)
    requires IdsBelow(db)
    ensures var (db', v) := Record(c, db, f, now, at);
      IdsBelow(db') && |db'.runs| == |db.runs| + if v == Recorded then 1 else 0
  {
    assert db.nextRun !in db.runs;
  }

  /** The service's recording loop, with its counters. */
  class Service {
    const crypto: Crypto
    var db: Db

    constructor (crypto: Crypto, db: Db)
      ensures this.crypto == crypto && this.db == db
    {
      this.crypto, this.db := crypto, db;
    }

    method RecordRelayedHeartbeat(f: Fields, now: int, at: int) returns (v: Verdict)
      modifies this`db
      ensures (db, v) == Record(crypto, old(db), f, now, at)
    {
      var slug := NormaliseSlug(f.slug);
      if slug !in db.jobs { return UnknownJob; }
      var job := db.jobs[slug];
      if f.ts.None? { return BadTimestamp; }
      if !Fresh(f.ts.value, now) { return Stale; }
      var expected := crypto.hmac(job.key, SigningPayload(crypto.numbers, f));
      if !SignatureMatches(expected, f.signature) { return BadSignature; }
      var r := Insert(db, job, "relay:" + expected, at);
      db := r.0;
      v := if r.1 then Duplicate else Recorded;
    }

    /** One poll: every parsed line is counted once, and the rows grow by what is recorded. */
    method PollRelayOnce(body: seq<Fields>, now: int, at: int)
      returns (recorded: nat, duplicate: nat, rejected: seq<(string, Verdict)>)
      requires IdsBelow(db)
      modifies this`db
      ensures db == RecordAll(crypto, old(db), body, now, at)
      ensures recorded + duplicate + |rejected| == |body|
      ensures |db.runs| == |old(db).runs| + recorded
      ensures forall r :: r in rejected ==> r.1 != Recorded && r.1 != Duplicate
    {
      recorded, duplicate, rejected := 0, 0, [];
      for i := 0 to |body|
        invariant db == RecordAll(crypto, old(db), body[..i], now, at)
        invariant recorded + duplicate + |rejected| == i
        invariant |db.runs| == |old(db).runs| + recorded
        invariant IdsBelow(db)
        invariant forall r :: r in rejected ==> r.1 != Recorded && r.1 != Duplicate
      {
        assert body[..i + 1][..i] == body[..i];
        RecordCounts(crypto, db, body[i], now, at);
        var v := RecordRelayedHeartbeat(body[i], now, at);
        match v {
          case Recorded => recorded := recorded + 1;
          case Duplicate => duplicate := duplicate + 1;
          case _ => rejected := rejected + [(NormaliseSlug(body[i].slug), v)];
        }
      }
      assert body[..|body|] == body;
    }
  }

  // ----- What can happen to the database -----

  /** A poll reads the clock before it fetches and records after; the fetch is bounded. */
  const MAX_LAG := DAY - 2 * MAX_AGE

  datatype Event =
    | Poll(body: seq<Fields>, now: int, at: int)
    | Direct(slug: string, sourceRef: string, at: int)   // over HTTP: the body may name any reference
    | Prune(deleted: set<nat>, days: nat, at: int)
    | CreateJob(slug: string, key: string, at: int)
    | RegenerateToken(slug: string, key: string, at: int)
    | DeleteJob(slug: string, at: int)

  /** `clock` is the time so far, `used` the keys ever handed out, `claimed` the references ever
      stored by heartbeats over HTTP, `log` what polls recorded. */
  datatype State = State(db: Db, clock: int, used: set<string>, claimed: set<string>, log: seq<Entry>)
  datatype Entry = Entry(job: Job, fields: Fields, at: int)

  predicate IsNewestOfJob(db: Db, id: nat)
    requires id in db.runs
  {
    forall other :: other in db.runs && db.runs[other].job == db.runs[id].job ==> other <= id
  }

  predicate Prunable(db: Db, id: nat, days: nat, at: int) {
    id in db.runs && db.runs[id].reportedAt < at - days * DAY && !IsNewestOfJob(db, id)
  }

  /** What a poll hashes to check these heartbeats. */
  predicate Hashes(c: Crypto, db: Db, body: seq<Fields>) {
    forall f :: f in body && NormaliseSlug(f.slug) in db.jobs ==> c.Signs(db.jobs[NormaliseSlug(f.slug)].key, f)
  }

  predicate Enabled(c: Crypto, s: State, e: Event) {
    && s.clock <= e.at
    && match e
       case Poll(body, now, at) => now <= at <= now + MAX_LAG && Hashes(c, s.db, body)
       case Direct(slug, _, _) => slug in s.db.jobs
       case Prune(deleted, days, at) => days >= 1 && forall id :: id in deleted ==> Prunable(s.db, id, days, at)
       case CreateJob(slug, key, _) => slug !in s.db.jobs && key !in s.used
       case RegenerateToken(slug, key, _) => slug in s.db.jobs && key !in s.used
       case DeleteJob(slug, _) => slug in s.db.jobs
  }

  /** What recording `f` adds to the log. */
  function Added(c: Crypto, db: Db, f: Fields, now: int, at: int): seq<Entry> {
    if Record(c, db, f, now, at).1 == Recorded then [Entry(db.jobs[NormaliseSlug(f.slug)], f, at)] else []
  }

  function Logged(c: Crypto, db: Db, body: seq<Fields>, now: int, at: int): seq<Entry> {
    if body == [] then []
    else
      var n := |body| - 1;
      Logged(c, db, body[..n], now, at) + Added(c, RecordAll(c, db, body[..n], now, at), body[n], now, at)
  }

  function Claims(sourceRef: string): set<string> {
    var ref := StoredRef(sourceRef);
    if ref.Some? then {ref.value} else {}
  }

  function Next(c: Crypto, s: State, e: Event): State
    requires Enabled(c, s, e)
  {
    match e
    case Poll(body, now, at) =>
      s.(db := RecordAll(c, s.db, body, now, at), clock := at, log := s.log + Logged(c, s.db, body, now, at))
    case Direct(slug, sourceRef, at) =>
      s.(db := Insert(s.db, s.db.jobs[slug], sourceRef, at).0, clock := at, claimed := s.claimed + Claims(sourceRef))
    case Prune(deleted, _, at) =>
      s.(db := s.db.(runs := s.db.runs - deleted), clock := at)
    case CreateJob(slug, key, at) =>
      s.(db := s.db.(jobs := s.db.jobs[slug := Job(s.db.nextJob, key)], nextJob := s.db.nextJob + 1),
         clock := at, used := s.used + {key})
    case RegenerateToken(slug, key, at) =>
      s.(db := s.db.(jobs := s.db.jobs[slug := s.db.jobs[slug].(key := key)]), clock := at, used := s.used + {key})
    case DeleteJob(slug, at) =>
      s.(db := DropJob(s.db, slug), clock := at)
  }

  /** Deleting a job deletes its runs with it. */
  function DropJob(db: Db, slug: string): Db
    requires slug in db.jobs
  {
    db.(jobs := db.jobs - {slug},
        runs := map id | id in db.runs && db.runs[id].job != db.jobs[slug].id :: db.runs[id])
  }

  ghost predicate IsRun(c: Crypto, states: seq<State>, events: seq<Event>) {
    && |states| == |events| + 1
    && states[0] == State(Db(map[], map[], 0, 0), states[0].clock, {}, {}, [])
    && forall k {:trigger events[k]} :: 0 <= k < |events| ==>
         Enabled(c, states[k], events[k]) && states[k + 1] == Next(c, states[k], events[k])
  }

  // ----- The invariant -----

  function RefOf(c: Crypto, e: Entry): string
    requires e.fields.ts.Some?
  {
    Ref(c, e.job.key, e.fields)
  }

  predicate Current(db: Db, key: string) {
    exists slug :: slug in db.jobs && db.jobs[slug].key == key
  }

  /** Jobs share neither their row id nor their key. */
  ghost predicate JobsOk(db: Db, used: set<string>) {
    && (forall s :: s in db.jobs ==> db.jobs[s].id < db.nextJob && db.jobs[s].key in used)
    && (forall s, t :: s in db.jobs && t in db.jobs && s != t
          ==> db.jobs[s].id != db.jobs[t].id && db.jobs[s].key != db.jobs[t].key)
  }

  /** The row written when `e` was recorded. */
  ghost predicate Records(c: Crypto, e: Entry, row: Row) {
    e.fields.ts.Some? && row == Row(e.job.id, e.at, Some(RefOf(c, e)))
  }

  /** A logged heartbeat cannot be recorded again: its row is still there, or its key has been
      retired, or it is too old for any poll still to come. */
  ghost predicate Spent(c: Crypto, db: Db, clock: int, e: Entry)
    requires e.fields.ts.Some?
  {
    || (exists id :: id in db.runs && Records(c, e, db.runs[id]))
    || !Current(db, e.job.key)
    || e.fields.ts.value + (MAX_AGE as real) < (clock - MAX_LAG) as real
  }

  ghost predicate EntryOk(c: Crypto, db: Db, clock: int, used: set<string>, e: Entry) {
    && e.fields.ts.Some? && e.job.key in used && c.Signs(e.job.key, e.fields)
    && e.fields.ts.value - (MAX_AGE as real) <= e.at as real
    && (forall s :: s in db.jobs && db.jobs[s].key == e.job.key ==> db.jobs[s].id == e.job.id)
    && Spent(c, db, clock, e)
  }

  ghost predicate EntriesOk(c: Crypto, db: Db, clock: int, used: set<string>, log: seq<Entry>) {
    forall i :: 0 <= i < |log| ==> EntryOk(c, db, clock, used, log[i])
  }

  ghost predicate Distinct(c: Crypto, log: seq<Entry>) {
    forall i, j :: 0 <= i < j < |log| && log[i].fields.ts.Some? && log[j].fields.ts.Some?
                   ==> RefOf(c, log[i]) != RefOf(c, log[j])
  }

  ghost predicate HasRef(c: Crypto, e: Entry, ref: string) {
    e.fields.ts.Some? && RefOf(c, e) == ref
  }

  /** A heartbeat with this reference has been recorded by some poll. */
  ghost predicate InLog(c: Crypto, log: seq<Entry>, ref: string) {
    exists i :: 0 <= i < |log| && HasRef(c, log[i], ref)
  }

  ghost predicate RowsOk(c: Crypto, db: Db, claimed: set<string>, log: seq<Entry>) {
    && (forall id :: id in db.runs ==> id < db.nextRun)
    && (forall ref :: Seen(db, ref) ==> ref in claimed || InLog(c, log, ref))
  }

  ghost predicate Inv(c: Crypto, s: State) {
    && JobsOk(s.db, s.used) && EntriesOk(c, s.db, s.clock, s.used, s.log)
    && Distinct(c, s.log) && RowsOk(c, s.db, s.claimed, s.log)
  }

  lemma RefIsInjective(c: Crypto, k: string, f: Fields, k': string, f': Fields)
    requires c.Ideal() && f.ts.Some? && f'.ts.Some? && c.Signs(k, f) && c.Signs(k', f')
    requires Ref(c, k, f) == Ref(c, k', f')
    ensures k == k' && f.ts == f'.ts && SigningPayload(c.numbers, f) == SigningPayload(c.numbers, f')
  {
    var p, p' := SigningPayload(c.numbers, f), SigningPayload(c.numbers, f');
    assert Ref(c, k, f)[6..] == c.hmac(k, p) && Ref(c, k', f')[6..] == c.hmac(k', p');
    assert (k, p) in c.signings && (k', p') in c.signings;
    PayloadIsInjective(c.numbers, f, f');
  }

  /** An accepted heartbeat's reference is stored whole. */
  lemma AcceptedRefIsStored(c: Crypto, db: Db, f: Fields, now: int)
    requires Check(c, db, f, now).None?
    ensures StoredRef(Ref(c, db.jobs[NormaliseSlug(f.slug)].key, f)) ==
      Some(Ref(c, db.jobs[NormaliseSlug(f.slug)].key, f))
  {
  }

  // ----- Polls -----

  /** What is recorded now was never logged before. */
  lemma RecordedIsNew(c: Crypto, s: State, f: Fields, now: int, e: Entry)
    requires c.Ideal() && EntryOk(c, s.db, s.clock, s.used, e)
    requires now <= s.clock <= now + MAX_LAG && Hashes(c, s.db, [f])
    requires Record(c, s.db, f, now, s.clock).1 == Recorded
    ensures RefOf(c, e) != Ref(c, s.db.jobs[NormaliseSlug(f.slug)].key, f)
  {
    var key := s.db.jobs[NormaliseSlug(f.slug)].key;
    AcceptedRefIsStored(c, s.db, f, now);
    if RefOf(c, e) == Ref(c, key, f) {
      RefIsInjective(c, e.job.key, e.fields, key, f);
      assert Current(s.db, key);
    }
  }

  /** A row once written stays until something deletes it. */
  lemma EntryStays(c: Crypto, db: Db, db': Db, clock: int, used: set<string>, e: Entry)
    requires EntryOk(c, db, clock, used, e) && db'.jobs == db.jobs
    requires forall id :: id in db.runs ==> id in db'.runs && db'.runs[id] == db.runs[id]
    ensures EntryOk(c, db', clock, used, e)
  {
    if id :| id in db.runs && Records(c, e, db.runs[id]) {
      assert Records(c, e, db'.runs[id]);
    }
  }

  /** One new row with a reference makes just that reference seen. */
  lemma InsertSees(db: Db, job: Job, sourceRef: string, at: int, ref: string)
    requires forall id :: id in db.runs ==> id < db.nextRun
    ensures Seen(Insert(db, job, sourceRef, at).0, ref) <==> Seen(db, ref) || StoredRef(sourceRef) == Some(ref)
  {
    var db' := Insert(db, job, sourceRef, at).0;
    if id :| id in db.runs && db.runs[id].sourceRef == Some(ref) {
      assert db'.runs[id].sourceRef == Some(ref);
    } else if StoredRef(sourceRef) == Some(ref) {
      assert db'.runs[db.nextRun].sourceRef == Some(ref);
    }
  }

  /** The state after recording one heartbeat of a poll. */
  function AfterRecord(c: Crypto, s: State, f: Fields, now: int): State {
    s.(db := Record(c, s.db, f, now, s.clock).0, log := s.log + Added(c, s.db, f, now, s.clock))
  }

  lemma RecordKeepsInv(c: Crypto, s: State, f: Fields, now: int)
    requires c.Ideal() && Inv(c, s)
    requires now <= s.clock <= now + MAX_LAG && Hashes(c, s.db, [f])
    ensures Inv(c, AfterRecord(c, s, f, now))
    ensures AfterRecord(c, s, f, now).db.jobs == s.db.jobs
  {
    var s' := AfterRecord(c, s, f, now);
    if Record(c, s.db, f, now, s.clock).1 == Recorded {
      var job := s.db.jobs[NormaliseSlug(f.slug)];
      var ref := Ref(c, job.key, f);
      var entry := Entry(job, f, s.clock);
      AcceptedRefIsStored(c, s.db, f, now);
      assert Records(c, entry, s'.db.runs[s.db.nextRun]);
      assert forall i :: 0 <= i < |s.log| ==> s'.log[i] == s.log[i];
      assert HasRef(c, s'.log[|s.log|], ref);
      forall i | 0 <= i < |s'.log| ensures EntryOk(c, s'.db, s'.clock, s'.used, s'.log[i]) {
        if i < |s.log| {
          EntryStays(c, s.db, s'.db, s.clock, s.used, s.log[i]);
        }
      }
      forall i | 0 <= i < |s.log| ensures s.log[i].fields.ts.Some? && RefOf(c, s.log[i]) != ref {
        RecordedIsNew(c, s, f, now, s.log[i]);
      }
      forall r | Seen(s'.db, r) ensures r in s'.claimed || InLog(c, s'.log, r) {
        InsertSees(s.db, job, ref, s.clock, r);
        LogGrows(c, s.log, [entry], r);
      }
    } else {
      assert s'.log == s.log;
    }
  }

  lemma LogGrows(c: Crypto, log: seq<Entry>, more: seq<Entry>, ref: string)
    ensures InLog(c, log, ref) ==> InLog(c, log + more, ref)
  {
    if i :| 0 <= i < |log| && HasRef(c, log[i], ref) {
      assert (log + more)[i] == log[i];
    }
  }

  function AfterRecords(c: Crypto, s: State, body: seq<Fields>, now: int): State {
    s.(db := RecordAll(c, s.db, body, now, s.clock), log := s.log + Logged(c, s.db, body, now, s.clock))
  }

  lemma {:induction false} RecordsKeepInv(c: Crypto, s: State, body: seq<Fields>, now: int)
    requires c.Ideal() && Inv(c, s)
    requires now <= s.clock <= now + MAX_LAG && Hashes(c, s.db, body)
    ensures Inv(c, AfterRecords(c, s, body, now))
    ensures AfterRecords(c, s, body, now).db.jobs == s.db.jobs
  {
    if body == [] {
      assert AfterRecords(c, s, body, now) == s;
    } else {
      var n := |body| - 1;
      RecordsKeepInv(c, s, body[..n], now);
      var before := AfterRecords(c, s, body[..n], now);
      RecordKeepsInv(c, before, body[n], now);
      assert AfterRecord(c, before, body[n], now) == AfterRecords(c, s, body, now);
    }
  }

  /** A poll logs just the references that become seen during it. */
  lemma {:induction false} LoggedIsNewlySeen(c: Crypto, s: State, body: seq<Fields>, now: int, ref: string)
    requires forall id :: id in s.db.runs ==> id < s.db.nextRun
    ensures var after := RecordAll(c, s.db, body, now, s.clock);
      && after.jobs == s.db.jobs && (forall id :: id in after.runs ==> id < after.nextRun)
      && (Seen(s.db, ref) ==> Seen(after, ref))
      && (InLog(c, Logged(c, s.db, body, now, s.clock), ref) <==> !Seen(s.db, ref) && Seen(after, ref))
  {
    if body == [] {
    } else {
      var n := |body| - 1;
      LoggedIsNewlySeen(c, s, body[..n], now, ref);
      var before, f := RecordAll(c, s.db, body[..n], now, s.clock), body[n];
      var logged := Logged(c, s.db, body[..n], now, s.clock);
      var added := Added(c, before, f, now, s.clock);
      if Check(c, before, f, now).None? {
        var job := before.jobs[NormaliseSlug(f.slug)];
        AcceptedRefIsStored(c, before, f, now);
        InsertSees(before, job, Ref(c, job.key, f), s.clock, ref);
        LogGrows(c, logged, added, ref);
        if added != [] {
          assert HasRef(c, (logged + added)[|logged|], Ref(c, job.key, f));
        }
      } else {
        assert logged + added == logged;
      }
    }
  }

  /** Recording keeps what is seen, and an accepted heartbeat is seen. */
  lemma RecordSees(c: Crypto, db: Db, f: Fields, now: int, at: int)
    requires forall id :: id in db.runs ==> id < db.nextRun
    ensures forall ref :: Seen(db, ref) ==> Seen(Record(c, db, f, now, at).0, ref)
    ensures Check(c, db, f, now).None? ==>
      Seen(Record(c, db, f, now, at).0, Ref(c, db.jobs[NormaliseSlug(f.slug)].key, f))
  {
    if Check(c, db, f, now).None? {
      var job := db.jobs[NormaliseSlug(f.slug)];
      AcceptedRefIsStored(c, db, f, now);
      InsertSees(db, job, Ref(c, job.key, f), at, Ref(c, job.key, f));
      forall ref | Seen(db, ref) ensures Seen(Record(c, db, f, now, at).0, ref) {
        InsertSees(db, job, Ref(c, job.key, f), at, ref);
      }
    }
  }

  lemma RecordedFirstIsSeen(c: Crypto, db: Db, before: Db, f: Fields, now: int, at: int)
    requires before.jobs == db.jobs && IdsBelow(before) && Check(c, db, f, now).None?
    ensures Seen(Record(c, before, f, now, at).0, Ref(c, db.jobs[NormaliseSlug(f.slug)].key, f))
  {
    assert Check(c, before, f, now) == Check(c, db, f, now);
    RecordSees(c, before, f, now, at);
  }

  lemma InFront(body: seq<Fields>, f: Fields)
    requires f in body && f != body[|body| - 1]
    ensures f in body[..|body| - 1]
  {
    var i :| 0 <= i < |body| && body[i] == f;
    assert body[..|body| - 1][i] == f;
  }

  /** An accepted heartbeat is on record once the poll that carries it ends. */
  lemma {:induction false} AcceptedIsSeen(c: Crypto, s: State, body: seq<Fields>, now: int, f: Fields)
    requires IdsBelow(s.db)
    requires f in body && Check(c, s.db, f, now).None?
    ensures Seen(RecordAll(c, s.db, body, now, s.clock), Ref(c, s.db.jobs[NormaliseSlug(f.slug)].key, f))
  {
    var n := |body| - 1;
    var before, ref := RecordAll(c, s.db, body[..n], now, s.clock), Ref(c, s.db.jobs[NormaliseSlug(f.slug)].key, f);
    LoggedIsNewlySeen(c, s, body[..n], now, "");
    assert RecordAll(c, s.db, body, now, s.clock) == Record(c, before, body[n], now, s.clock).0;
    if f == body[n] {
      RecordedFirstIsSeen(c, s.db, before, f, now, s.clock);
    } else {
      InFront(body, f);
      AcceptedIsSeen(c, s, body[..n], now, f);
      RecordSees(c, before, body[n], now, s.clock);
    }
  }

  lemma InLogOfSum(c: Crypto, log: seq<Entry>, more: seq<Entry>, ref: string)
    ensures InLog(c, log + more, ref) <==> InLog(c, log, ref) || InLog(c, more, ref)
  {
    LogGrows(c, log, more, ref);
    if i :| 0 <= i < |more| && HasRef(c, more[i], ref) {
      assert (log + more)[|log| + i] == more[i];
    }
    if i :| 0 <= i < |log + more| && HasRef(c, (log + more)[i], ref) {
      assert i < |log| || HasRef(c, more[i - |log|], ref);
      assert i < |log| ==> HasRef(c, log[i], ref);
    }
  }

  /** What a poll does with a heartbeat it accepts, exactly: afterwards it has been recorded,
      except when a row that no poll wrote already holds its reference. */
  lemma PollRecords(c: Crypto, s: State, body: seq<Fields>, now: int, at: int, f: Fields)
    requires Inv(c, s) && Enabled(c, s, Poll(body, now, at))
    requires f in body && Check(c, s.db, f, now).None?
    ensures var ref := Ref(c, s.db.jobs[NormaliseSlug(f.slug)].key, f);
      InLog(c, Next(c, s, Poll(body, now, at)).log, ref) <==> InLog(c, s.log, ref) || !Seen(s.db, ref)
  {
    var ref := Ref(c, s.db.jobs[NormaliseSlug(f.slug)].key, f);
    var t, logged := s.(clock := at), Logged(c, s.db, body, now, at);
    AcceptedIsSeen(c, t, body, now, f);
    LoggedIsNewlySeen(c, t, body, now, ref);
    InLogOfSum(c, s.log, logged, ref);
  }

  // ----- The other events -----

  lemma ClockKeepsInv(c: Crypto, s: State, at: int)
    requires Inv(c, s) && s.clock <= at
    ensures Inv(c, s.(clock := at))
  {
    forall i | 0 <= i < |s.log| ensures EntryOk(c, s.db, at, s.used, s.log[i]) {
      assert EntryOk(c, s.db, s.clock, s.used, s.log[i]);
    }
  }

  lemma DirectKeepsInv(c: Crypto, s: State, slug: string, sourceRef: string)
    requires Inv(c, s) && slug in s.db.jobs
    ensures Inv(c, s.(db := Insert(s.db, s.db.jobs[slug], sourceRef, s.clock).0,
      claimed := s.claimed + Claims(sourceRef)))
  {
    var db' := Insert(s.db, s.db.jobs[slug], sourceRef, s.clock).0;
    forall i | 0 <= i < |s.log| ensures EntryOk(c, db', s.clock, s.used, s.log[i]) {
      EntryStays(c, s.db, db', s.clock, s.used, s.log[i]);
    }
    forall ref | Seen(db', ref) ensures ref in s.claimed + Claims(sourceRef) || InLog(c, s.log, ref) {
      InsertSees(s.db, s.db.jobs[slug], sourceRef, s.clock, ref);
    }
  }

  /** When the row of a recorded heartbeat is old enough to delete, the heartbeat is too old to
      be accepted by any poll still to come. */
  lemma PruneKeepsInv(c: Crypto, s: State, deleted: set<nat>, days: nat)
    requires Inv(c, s) && days >= 1
    requires forall id :: id in deleted ==> Prunable(s.db, id, days, s.clock)
    ensures Inv(c, s.(db := s.db.(runs := s.db.runs - deleted)))
  {
    var db' := s.db.(runs := s.db.runs - deleted);
    forall i | 0 <= i < |s.log| ensures EntryOk(c, db', s.clock, s.used, s.log[i]) {
      var e := s.log[i];
      assert EntryOk(c, s.db, s.clock, s.used, e);
      if id :| id in s.db.runs && Records(c, e, s.db.runs[id]) {
        if id in deleted {
          assert Prunable(s.db, id, days, s.clock);
          assert e.at < s.clock - DAY;
        } else {
          assert Records(c, e, db'.runs[id]);
        }
      }
    }
    SeenShrinks(s.db, db');
  }

  lemma SeenShrinks(db: Db, db': Db)
    requires forall id :: id in db'.runs ==> id in db.runs && db'.runs[id] == db.runs[id]
    ensures forall ref :: Seen(db', ref) ==> Seen(db, ref)
  {
    forall ref | Seen(db', ref) ensures Seen(db, ref) {
      var id :| id in db'.runs && db'.runs[id].sourceRef == Some(ref);
      assert db.runs[id].sourceRef == Some(ref);
    }
  }

  lemma CreateKeepsInv(c: Crypto, s: State, slug: string, key: string)
    requires Inv(c, s) && slug !in s.db.jobs && key !in s.used
    ensures Inv(c, s.(db := s.db.(jobs := s.db.jobs[slug := Job(s.db.nextJob, key)], nextJob := s.db.nextJob + 1),
      used := s.used + {key}))
  {
    var db' := s.db.(jobs := s.db.jobs[slug := Job(s.db.nextJob, key)], nextJob := s.db.nextJob + 1);
    forall i | 0 <= i < |s.log| ensures EntryOk(c, db', s.clock, s.used + {key}, s.log[i]) {
      assert EntryOk(c, s.db, s.clock, s.used, s.log[i]);
      KeyStaysRetired(s.db, db', s.log[i].job.key);
    }
    SeenShrinks(s.db, db');
  }

  lemma KeyStaysRetired(db: Db, db': Db, key: string)
    requires forall slug :: slug in db'.jobs && db'.jobs[slug].key == key ==>
      slug in db.jobs && db.jobs[slug].key == key
    ensures Current(db', key) ==> Current(db, key)
  {
  }

  lemma RegenerateKeepsInv(c: Crypto, s: State, slug: string, key: string)
    requires Inv(c, s) && slug in s.db.jobs && key !in s.used
    ensures Inv(c, s.(db := s.db.(jobs := s.db.jobs[slug := s.db.jobs[slug].(key := key)]), used := s.used + {key}))
  {
    var db' := s.db.(jobs := s.db.jobs[slug := s.db.jobs[slug].(key := key)]);
    forall i | 0 <= i < |s.log| ensures EntryOk(c, db', s.clock, s.used + {key}, s.log[i]) {
      assert EntryOk(c, s.db, s.clock, s.used, s.log[i]);
      KeyStaysRetired(s.db, db', s.log[i].job.key);
    }
    SeenShrinks(s.db, db');
  }

  /** Deleting a job drops only rows whose keys go with it. */
  lemma DeleteKeepsInv(c: Crypto, s: State, slug: string)
    requires Inv(c, s) && slug in s.db.jobs
    ensures Inv(c, s.(db := DropJob(s.db, slug)))
  {
    var db' := DropJob(s.db, slug);
    forall i | 0 <= i < |s.log| ensures EntryOk(c, db', s.clock, s.used, s.log[i]) {
      var e := s.log[i];
      assert EntryOk(c, s.db, s.clock, s.used, e);
      KeyStaysRetired(s.db, db', e.job.key);
      if id :| id in s.db.runs && Records(c, e, s.db.runs[id]) {
        if id in db'.runs {
          assert Records(c, e, db'.runs[id]);
        } else {
          assert s.db.jobs[slug].id == e.job.id;
          assert !Current(db', e.job.key);
        }
      }
    }
    SeenShrinks(s.db, db');
  }

  lemma StepKeepsInv(c: Crypto, s: State, e: Event)
    requires c.Ideal() && Inv(c, s) && Enabled(c, s, e)
    ensures Inv(c, Next(c, s, e))
    ensures s.log <= Next(c, s, e).log
  {
    var t := s.(clock := e.at);
    ClockKeepsInv(c, s, e.at);
    match e {
      case Poll(body, now, _) => RecordsKeepInv(c, t, body, now);
      case Direct(slug, sourceRef, _) => DirectKeepsInv(c, t, slug, sourceRef);
      case Prune(deleted, days, _) => PruneKeepsInv(c, t, deleted, days);
      case CreateJob(slug, key, _) => CreateKeepsInv(c, t, slug, key);
      case RegenerateToken(slug, key, _) => RegenerateKeepsInv(c, t, slug, key);
      case DeleteJob(slug, _) => DeleteKeepsInv(c, t, slug);
    }
  }

  // ----- Whole runs -----

  lemma {:induction false} RunKeepsInv(c: Crypto, states: seq<State>, events: seq<Event>, k: nat)
    requires c.Ideal() && IsRun(c, states, events) && k <= |events|
    ensures Inv(c, states[k])
  {
    if k > 0 {
      RunKeepsInv(c, states, events, k - 1);
      assert states[k - 1 + 1] == Next(c, states[k - 1], events[k - 1]);
      StepKeepsInv(c, states[k - 1], events[k - 1]);
    }
  }

  lemma {:induction false} LogOnlyGrows(c: Crypto, states: seq<State>, events: seq<Event>, j: nat, k: nat)
    requires c.Ideal() && IsRun(c, states, events) && j <= k <= |events|
    ensures states[j].log <= states[k].log
  {
    if j < k {
      LogOnlyGrows(c, states, events, j, k - 1);
      RunKeepsInv(c, states, events, k - 1);
      assert states[k - 1 + 1] == Next(c, states[k - 1], events[k - 1]);
      StepKeepsInv(c, states[k - 1], events[k - 1]);
    }
  }

  /** Over every sequence of polls, replays, prunes and token changes, no two recordings ever
      carry the same signed heartbeat. */
  lemma AtMostOnce(c: Crypto, states: seq<State>, events: seq<Event>, i: nat, j: nat)
    requires c.Ideal() && IsRun(c, states, events)
    requires i < j < |states[|events|].log|
    ensures var log := states[|events|].log;
      && log[i].fields.ts.Some? && log[j].fields.ts.Some?
      && (log[i].job.key != log[j].job.key ||
        SigningPayload(c.numbers, log[i].fields) != SigningPayload(c.numbers, log[j].fields))
  {
    RunKeepsInv(c, states, events, |events|);
    var s := states[|events|];
    assert EntryOk(c, s.db, s.clock, s.used, s.log[i]) && EntryOk(c, s.db, s.clock, s.used, s.log[j]);
  }

  /** A heartbeat that some poll accepted is recorded exactly once by the end of any run, unless
      its reference was then on a row that no poll wrote; no other claim on it matters. */
  lemma ExactlyOnce(c: Crypto, states: seq<State>, events: seq<Event>, k: nat, f: Fields)
    requires c.Ideal() && IsRun(c, states, events)
    requires k < |events| && events[k].Poll? && f in events[k].body
    requires Check(c, states[k].db, f, events[k].now).None?
    ensures var ref := Ref(c, states[k].db.jobs[NormaliseSlug(f.slug)].key, f);
      var log := states[|events|].log;
      && (InLog(c, states[k].log, ref) || !Seen(states[k].db, ref) ==> InLog(c, log, ref))
      && (ref !in states[k].claimed ==> InLog(c, log, ref))
      && (forall i, j :: 0 <= i < j < |log| && HasRef(c, log[i], ref) ==> !HasRef(c, log[j], ref))
  {
    var ref := Ref(c, states[k].db.jobs[NormaliseSlug(f.slug)].key, f);
    var Poll(body, now, at) := events[k];
    RunKeepsInv(c, states, events, k);
    RunKeepsInv(c, states, events, |events|);
    PollRecords(c, states[k], body, now, at, f);
    assert states[k + 1] == Next(c, states[k], events[k]);
    LogOnlyGrows(c, states, events, k + 1, |events|);
    var log, log' := states[k + 1].log, states[|events|].log;
    LogGrows(c, log, log'[|log|..], ref);
    assert log + log'[|log|..] == log';
  }

  /** The reference in the body of a heartbeat over HTTP is stored as given, so one that names a
      relayed heartbeat keeps polls from recording it. */
  lemma ClaimedIsNotRecorded(c: Crypto, s: State, slug: string, at: int, f: Fields, now: int)
    requires Inv(c, s) && slug in s.db.jobs && s.clock <= at && now <= at <= now + MAX_LAG && Hashes(c, s.db, [f])
    requires Check(c, s.db, f, now).None?
    requires !InLog(c, s.log, Ref(c, s.db.jobs[NormaliseSlug(f.slug)].key, f))
    ensures var ref := Ref(c, s.db.jobs[NormaliseSlug(f.slug)].key, f);
      var s' := Next(c, s, Direct(slug, ref, at));
      Enabled(c, s', Poll([f], now, at)) && Next(c, s', Poll([f], now, at)).log == s.log
  {
    var ref := Ref(c, s.db.jobs[NormaliseSlug(f.slug)].key, f);
    var s' := Next(c, s, Direct(slug, ref, at));
    AcceptedRefIsStored(c, s.db, f, now);
    InsertSees(s.db, s.db.jobs[slug], ref, at, ref);
    assert [f][..0] == [] && Logged(c, s'.db, [], now, at) == [];
  }

  // ----- The assumptions exclude nothing -----

  lemma {:induction false} SomeHash(n: nat) returns (hash: string)
    ensures |hash| == n && Lower(hash) == hash && forall i :: 0 <= i < n ==> hash[i] == '0'
  {
    hash := "";
    if n > 0 {
      var rest := SomeHash(n - 1);
      hash := "0" + rest;
    }
  }

  /** A run whose only recording is the heartbeat `f`. */
  ghost predicate RecordsJust(c: Crypto, states: seq<State>, events: seq<Event>, f: Fields) {
    && c.Ideal() && IsRun(c, states, events)
    && |states[|events|].log| == 1 && states[|events|].log[0].fields == f
  }

  lemma RecordedUnder(c: Crypto, hash: string, f: Fields, key: string, at: int)
    returns (states: seq<State>, events: seq<Event>)
    requires c.Ideal() && (forall k, p :: c.hmac(k, p) == hash) && c.Signs(key, f)
    requires f.ts.Some? && Fresh(f.ts.value, at) && SignatureMatches(hash, f.signature)
    ensures RecordsJust(c, states, events, f)
  {
    var slug := NormaliseSlug(f.slug);
    var s0 := State(Db(map[], map[], 0, 0), at, {}, {}, []);
    var e0, e1 := CreateJob(slug, key, at), Poll([f], at, at);
    var s1 := Next(c, s0, e0);
    assert Check(c, s1.db, f, at).None?;
    assert [f][..0] == [] && RecordAll(c, s1.db, [], at, at) == s1.db;
    assert Record(c, s1.db, f, at, at).1 == Recorded;
    assert Logged(c, s1.db, [f], at, at) == [] + Added(c, s1.db, f, at, at);
    var s2 := Next(c, s1, e1);
    assert s2.log == [Entry(Job(0, key), f, at)];
    states, events := [s0, s1, s2], [e0, e1];
    assert states[|events|] == s2;
  }

  /** Any fresh heartbeat is recorded in some run, under some hash that the results above apply to. */
  lemma AnyFreshIsRecorded(n: Numbers, f: Fields, at: int)
    requires n.Faithful() && f.ts.Some? && Fresh(f.ts.value, at)
    ensures exists c: Crypto, states, events, signature ::
      c.numbers == n && RecordsJust(c, states, events, f.(signature := signature))
  {
    var hash := SomeHash(64);
    var c := Crypto(n, (k, p) => hash, {("", SigningPayload(n, f))});
    var states, events := RecordedUnder(c, hash, f.(signature := hash), "", at);
  }
}
