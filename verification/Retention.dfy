/** Bounded batch retention: whatever rows each LIMIT picks, the batches converge to one
    well-defined result, and every total counts the rows really changed. */
module Retention {
  import opened Wrappers

  datatype Key = Key(table: string, id: nat)

  /** A row of any table that retention prunes; a time is absent when the column is NULL. */
  datatype Row =
    | RunFile(run: nat)
    | Run(status: string, startedAt: Option<int>, completedAt: Option<int>)
    | PeerAudit(action: string, createdAt: Option<int>)
    | Metric(recordedAt: Option<int>)
    | Cached(statsOf: Option<int>)              // the config a version_stats entry is about
    | AuthAudit(createdAt: Option<int>)
    | Session(revokedAt: Option<int>, absoluteExpiresAt: Option<int>)
    | Recovery(status: string, expiresAt: Option<int>, createdAt: Option<int>)
    | Pairing(status: string, error: Option<string>, expiresAt: Option<int>, updatedAt: Option<int>)
    | ExternalRun(job: nat, reportedAt: Option<int>)
    | Event(createdAt: Option<int>)

  type Db = map<Key, Row>

  datatype Policy = Policy(
    runFileDays: nat, runHistoryDays: nat, routineAuditDays: nat, securityAuditDays: nat,
    authAuditDays: nat, metricsHours: nat, externalRunDays: nat, eventDays: nat)

  /** What one pass reads: its policy, the clock, and the backup configs there are. */
  datatype Context = Context(policy: Policy, now: int, configs: set<int>)

  /** The statements of one batch, named by their result keys. */
  datatype Statement =
    | RunFiles | Runs | RoutineAudit | SecurityAudit | Metrics | Summaries | AuthAudits
    | AuthSessions | AuthRecovery | PairingExpired | PairingHistory | ExternalRuns | Events

  const ORDER: seq<Statement> := [
    RunFiles, Runs, RoutineAudit, SecurityAudit, Metrics, Summaries, AuthAudits,
    AuthSessions, AuthRecovery, PairingExpired, PairingHistory, ExternalRuns, Events]

  const HOUR := 3600
  const DAY := 86400
  const ROUTINE_ACTIONS := {
    "auth_success", "health_check", "status_check", "storage_check", "browse", "roots", "shares"}

  /** The statement that may touch a row. */
  function Kind(row: Row): Statement {
    match row
    case RunFile(_) => RunFiles
    case Run(_, _, _) => Runs
    case PeerAudit(action, _) => if action in ROUTINE_ACTIONS then RoutineAudit else SecurityAudit
    case Metric(_) => Metrics
    case Cached(_) => Summaries
    case AuthAudit(_) => AuthAudits
    case Session(_, _) => AuthSessions
    case Recovery(_, _, _) => AuthRecovery
    case Pairing(status, _, _, _) => if status in {"pending", "accepting"} then PairingExpired else PairingHistory
    case ExternalRun(_, _) => ExternalRuns
    case Event(_) => Events
  }

  /** A comparison with NULL is never true. */
  predicate Before(time: Option<int>, cutoff: int) {
    time.Some? && time.value < cutoff
  }

  predicate HasFiles(db: Db, run: nat) {
    exists f :: f in db && db[f] == RunFile(run)
  }

  predicate IsNewestOfJob(db: Db, job: nat, id: nat) {
    forall k :: k in db && db[k].ExternalRun? && db[k].job == job ==> k.id <= id
  }

  predicate FileDue(c: Context, db: Db, run: nat) {
    var key := Key("backup_runs", run);
    key in db && db[key].Run? && Before(db[key].startedAt, c.now - c.policy.runFileDays * DAY)
  }

  /** The run is finished and past its history limit. */
  predicate RunAged(c: Context, row: Row)
    requires row.Run?
  {
    var cutoff := c.now - c.policy.runHistoryDays * DAY;
    && row.status != "running"
    && (Before(row.completedAt, cutoff) || (row.completedAt.None? && Before(row.startedAt, cutoff)))
  }

  /** The WHERE clause of the statement of the row's kind. */
  predicate Due(c: Context, db: Db, k: Key)
    requires k in db
  {
    match db[k]
    case RunFile(run) => FileDue(c, db, run)
    case Run(_, _, _) => RunAged(c, db[k]) && !HasFiles(db, k.id)
    case PeerAudit(action, at) =>
      var days := if action in ROUTINE_ACTIONS then c.policy.routineAuditDays else c.policy.securityAuditDays;
      Before(at, c.now - days * DAY)
    case Metric(at) => Before(at, c.now - c.policy.metricsHours * HOUR)
    case Cached(config) => config.Some? && config.value !in c.configs
    case AuthAudit(at) => Before(at, c.now - c.policy.authAuditDays * DAY)
    case Session(revoked, expires) =>
      Before(revoked, c.now - 7 * DAY) || (revoked.None? && Before(expires, c.now - 7 * DAY))
    case Recovery(status, expires, at) => (status != "issued" || Before(expires, c.now)) && Before(at, c.now - 30 * DAY)
    case Pairing(status, _, expires, updated) =>
      if status in {"pending", "accepting"} then Before(expires, c.now)
      else status in {"expired", "failed", "declined"} && Before(updated, c.now - HOUR)
    case ExternalRun(job, at) => Before(at, c.now - c.policy.externalRunDays * DAY) && !IsNewestOfJob(db, job, k.id)
    case Event(at) => Before(at, c.now - c.policy.eventDays * DAY)
  }

  function Eligible(c: Context, db: Db, st: Statement): set<Key> {
    set k | k in db && Kind(db[k]) == st && Due(c, db, k)
  }

  /** What a statement makes of a row it picks, for the one statement that updates. */
  function Expire(now: int, row: Row): Row {
    if row.Pairing? then
      row.(status := "expired", updatedAt := Some(now),
           error := if row.error.Some? then row.error else Some("Pairing request expired"))
    else row
  }

  function Apply(c: Context, db: Db, st: Statement, picked: set<Key>): Db {
    if st == PairingExpired then map k | k in db :: if k in picked then Expire(c.now, db[k]) else db[k]
    else db - picked
  }

  // ----- Pruning in one shot -----

  /** The rows that go: a run goes once it is past its limit and all its file rows go. */
  predicate Goes(c: Context, db: Db, k: Key)
    requires k in db
  {
    match db[k]
    case Run(_, _, _) => RunAged(c, db[k]) && (HasFiles(db, k.id) ==> FileDue(c, db, k.id))
    case Pairing(_, _, _, _) => Kind(db[k]) == PairingHistory && Due(c, db, k)
    case _ => Due(c, db, k)
  }

  function Settled(c: Context, db: Db, k: Key): Row
    requires k in db
  {
    if Kind(db[k]) == PairingExpired && Due(c, db, k) then Expire(c.now, db[k]) else db[k]
  }

  function OneShot(c: Context, db: Db): Db {
    map k | k in db && !Goes(c, db, k) :: Settled(c, db, k)
  }

  /** The rows of one kind that are not yet as one-shot pruning leaves them. */
  function Unsettled(c: Context, db: Db, st: Statement): set<Key> {
    set k | k in db && Kind(db[k]) == st && (Goes(c, db, k) || Settled(c, db, k) != db[k])
  }

  /** Every job with runs has a newest one. */
  lemma {:induction false} NewestExists(db: Db, k: Key) returns (newest: Key)
    requires k in db && db[k].ExternalRun?
    ensures newest in db && db[newest].ExternalRun? && db[newest].job == db[k].job
    ensures newest.id >= k.id && IsNewestOfJob(db, db[k].job, newest.id)
    decreases |set m | m in db && db[m].ExternalRun? && db[m].job == db[k].job && m.id > k.id|
  {
    var job := db[k].job;
    if m :| m in db && db[m].ExternalRun? && db[m].job == job && m.id > k.id {
      var above := set n | n in db && db[n].ExternalRun? && db[n].job == job && n.id > k.id;
      var higher := set n | n in db && db[n].ExternalRun? && db[n].job == job && n.id > m.id;
      assert m in above - higher && higher <= above;
      Smaller(higher, above, m);
      newest := NewestExists(db, m);
    } else {
      newest := k;
    }
  }

  lemma Smaller(a: set<Key>, b: set<Key>, k: Key)
    requires a <= b && k in b && k !in a
    ensures |a| < |b|
  {
    assert b == (b - a) + a && k in b - a;
    assert |b| == |b - a| + |a|;
  }

  /** The newest run of a job is never picked, so being newest does not change. */
  lemma NewestStays(c: Context, db: Db, st: Statement, picked: set<Key>, k: Key)
    requires picked <= Eligible(c, db, st) && k in db && db[k].ExternalRun?
    ensures var db' := Apply(c, db, st, picked);
      && (IsNewestOfJob(db, db[k].job, k.id) ==> k in db' && db'[k] == db[k])
      && (IsNewestOfJob(db', db[k].job, k.id) <==> IsNewestOfJob(db, db[k].job, k.id))
  {
    var db' := Apply(c, db, st, picked);
    var newest := NewestExists(db, k);
    assert newest in db' && db'[newest] == db[newest];
  }

  /** Runs are deleted only once their file rows are gone. */
  lemma FileDueStays(c: Context, db: Db, st: Statement, picked: set<Key>, run: nat)
    requires picked <= Eligible(c, db, st) && HasFiles(db, run)
    ensures FileDue(c, Apply(c, db, st, picked), run) <==> FileDue(c, db, run)
  {
    var key := Key("backup_runs", run);
    if key in db && db[key].Run? {
      assert key !in picked;
    } else if key in db {
      assert key in Apply(c, db, st, picked) ==> !Apply(c, db, st, picked)[key].Run?;
    }
  }

  lemma FilesStay(c: Context, db: Db, st: Statement, picked: set<Key>, run: nat)
    requires picked <= Eligible(c, db, st)
    ensures var db' := Apply(c, db, st, picked);
      && (HasFiles(db', run) ==> HasFiles(db, run))
      && (HasFiles(db, run) && !HasFiles(db', run) ==> FileDue(c, db, run))
  {
    var db' := Apply(c, db, st, picked);
    if f :| f in db && db[f] == RunFile(run) {
      if f in db' {
        assert db'[f] == RunFile(run);
      }
    }
  }

  lemma RunsKeepTheirFate(c: Context, db: Db, st: Statement, picked: set<Key>, k: Key)
    requires picked <= Eligible(c, db, st) && k in db && k !in picked && db[k].Run?
    ensures var db' := Apply(c, db, st, picked);
      k in db' && db'[k] == db[k] && Goes(c, db', k) == Goes(c, db, k) && Settled(c, db', k) == Settled(c, db, k)
  {
    FilesStay(c, db, st, picked, k.id);
    if HasFiles(db, k.id) {
      FileDueStays(c, db, st, picked, k.id);
    }
  }

  /** A row that a statement leaves alone is as settled afterwards as before. */
  lemma OthersKeepTheirFate(c: Context, db: Db, st: Statement, picked: set<Key>, k: Key)
    requires picked <= Eligible(c, db, st) && k in db && k !in picked
    ensures var db' := Apply(c, db, st, picked);
      k in db' && db'[k] == db[k] && Goes(c, db', k) == Goes(c, db, k) && Settled(c, db', k) == Settled(c, db, k)
  {
    match db[k] {
      case RunFile(run) =>
        assert HasFiles(db, run);
        FileDueStays(c, db, st, picked, run);
      case Run(_, _, _) =>
        RunsKeepTheirFate(c, db, st, picked, k);
      case ExternalRun(_, _) =>
        NewestStays(c, db, st, picked, k);
      case _ =>
    }
  }

  /** A picked row becomes what one-shot pruning makes of it. */
  lemma PickedSettles(c: Context, db: Db, st: Statement, picked: set<Key>, k: Key)
    requires picked <= Eligible(c, db, st) && k in picked
    ensures var db' := Apply(c, db, st, picked);
      && k in Unsettled(c, db, st)
      && (k in db' <==> !Goes(c, db, k))
      && (k in db' ==> db'[k] == Settled(c, db, k) && !Goes(c, db', k) && Settled(c, db', k) == db'[k])
  {
  }

  /** The heart of convergence: no statement changes where one-shot pruning ends, and each
      settles exactly the rows it picks. */
  lemma StatementKeepsOutcome(c: Context, db: Db, st: Statement, picked: set<Key>)
    requires picked <= Eligible(c, db, st)
    ensures OneShot(c, Apply(c, db, st, picked)) == OneShot(c, db)
    ensures Unsettled(c, Apply(c, db, st, picked), st) == Unsettled(c, db, st) - picked
    ensures forall s :: s != st ==> Unsettled(c, Apply(c, db, st, picked), s) == Unsettled(c, db, s)
    ensures picked <= Unsettled(c, db, st)
  {
    var db' := Apply(c, db, st, picked);
    forall k | k in db
      ensures k in picked ==> k in Unsettled(c, db, st)
      ensures k in OneShot(c, db') <==> k in OneShot(c, db)
      ensures k in OneShot(c, db) ==> OneShot(c, db')[k] == OneShot(c, db)[k]
      ensures forall s :: k in Unsettled(c, db', s) <==> k in Unsettled(c, db, s) && !(s == st && k in picked)
    {
      if k in picked {
        PickedSettles(c, db, st, picked, k);
      } else {
        OthersKeepTheirFate(c, db, st, picked, k);
      }
    }
    assert forall k :: k in db' ==> k in db;
  }

  /** With nothing eligible the database is its own one-shot result. */
  lemma QuietIsSettled(c: Context, db: Db)
    requires forall st :: Eligible(c, db, st) == {}
    ensures OneShot(c, db) == db
    ensures forall st :: Unsettled(c, db, st) == {}
  {
    forall k | k in db ensures !Due(c, db, k) && !Goes(c, db, k) && Settled(c, db, k) == db[k] {
      assert k !in Eligible(c, db, Kind(db[k]));
      if db[k].Run? && HasFiles(db, k.id) {
        var f :| f in db && db[f] == RunFile(k.id);
        assert f !in Eligible(c, db, RunFiles);
      }
    }
  }

  lemma RunsLeftAreNotDue(c: Context, db: Db, k: Key)
    requires k in OneShot(c, db) && db[k].Run?
    ensures !Due(c, OneShot(c, db), k)
  {
    var done := OneShot(c, db);
    if f :| f in db && db[f] == RunFile(k.id) {
      if RunAged(c, db[k]) {
        assert f in done && done[f] == RunFile(k.id);
      }
    }
  }

  lemma ExternalRunsLeftAreNotDue(c: Context, db: Db, k: Key)
    requires k in OneShot(c, db) && db[k].ExternalRun?
    ensures !Due(c, OneShot(c, db), k)
  {
    var newest := NewestExists(db, k);
    assert newest in OneShot(c, db);
  }

  /** One-shot pruning leaves nothing eligible. */
  lemma OneShotIsClean(c: Context, db: Db, st: Statement)
    ensures Eligible(c, OneShot(c, db), st) == {}
  {
    var done := OneShot(c, db);
    forall k | k in done ensures !Due(c, done, k) {
      match db[k] {
        case RunFile(run) => assert !FileDue(c, db, run);
        case Run(_, _, _) => RunsLeftAreNotDue(c, db, k);
        case ExternalRun(_, _) => ExternalRunsLeftAreNotDue(c, db, k);
        case _ =>
      }
    }
  }

  /** No statement deletes a run that still has file rows. */
  lemma FilesKeepTheirRun(c: Context, db: Db, st: Statement, picked: set<Key>, f: Key)
    requires picked <= Eligible(c, db, st) && f in Apply(c, db, st, picked)
    requires db[f].RunFile? && Key("backup_runs", db[f].run) in db
    requires db[Key("backup_runs", db[f].run)].Run?
    ensures Key("backup_runs", db[f].run) in Apply(c, db, st, picked)
  {
    assert HasFiles(db, db[f].run);
  }

  predicate Kept(c: Context, db: Db, k: Key)
    requires k in db
  {
    k in OneShot(c, db) && OneShot(c, db)[k] == db[k]
  }

  /** What pruning never takes, under any policy: running runs, the newest run of each external
      job, file rows of no stored run, recent or unexpired sessions, recovery tokens still good, and
      pairings that are neither over nor expired; a pairing that expires now is marked, not deleted;
      and what stays of a run's file rows keeps the run. */
  lemma OneShotSpares(c: Context, db: Db, k: Key)
    requires k in db
    ensures db[k].Run? && db[k].status == "running" ==> Kept(c, db, k)
    ensures db[k].ExternalRun? && IsNewestOfJob(db, db[k].job, k.id) ==> Kept(c, db, k)
    ensures db[k].RunFile? && Key("backup_runs", db[k].run) !in db ==> Kept(c, db, k)
    ensures db[k].Session? && db[k].revokedAt == Some(c.now) ==> Kept(c, db, k)
    ensures db[k].Session? && db[k].revokedAt.None? && !Before(db[k].absoluteExpiresAt, c.now) ==> Kept(c, db, k)
    ensures db[k].Recovery? && db[k].status == "issued" && !Before(db[k].expiresAt, c.now) ==> Kept(c, db, k)
    ensures db[k].Pairing? && db[k].status == "accepted" ==> Kept(c, db, k)
    ensures db[k].Pairing? && db[k].status in {"pending", "accepting"} ==>
              k in OneShot(c, db) && (OneShot(c, db)[k] == db[k] || OneShot(c, db)[k].status == "expired")
    ensures k in OneShot(c, db) && db[k].RunFile? && Key("backup_runs", db[k].run) in db ==>
              var run := Key("backup_runs", db[k].run); db[run].Run? ==> run in OneShot(c, db)
  {
    if db[k].RunFile? {
      assert HasFiles(db, db[k].run);
    }
  }

  // ----- Batches -----

  function Sum(counts: seq<nat>): nat {
    if counts == [] then 0 else Sum(counts[..|counts| - 1]) + counts[|counts| - 1]
  }

  /** How many rows of each kind are left to settle. */
  function Left(c: Context, db: Db): (counts: seq<nat>)
    ensures |counts| == |ORDER|
  {
    seq(|ORDER|, i requires 0 <= i < |ORDER| => |Unsettled(c, db, ORDER[i])|)
  }

  /** `a` and `b` add up to `total`, place by place. */
  predicate AddsUp(a: seq<nat>, b: seq<nat>, total: seq<nat>) {
    |a| == |b| == |total| && forall i :: 0 <= i < |a| ==> a[i] + b[i] == total[i]
  }

  lemma {:induction false} SumsAddUp(a: seq<nat>, b: seq<nat>, total: seq<nat>)
    requires AddsUp(a, b, total)
    ensures Sum(a) + Sum(b) == Sum(total)
  {
    if a != [] {
      var n := |a| - 1;
      SumsAddUp(a[..n], b[..n], total[..n]);
    }
  }

  function Plus(a: seq<nat>, b: seq<nat>): (sum: seq<nat>)
    requires |a| == |b|
    ensures |sum| == |a|
  {
    seq(|a|, i requires 0 <= i < |a| => a[i] + b[i])
  }

  lemma CountsAccumulate(totals: seq<nat>, removed: seq<nat>, first: seq<nat>, before: seq<nat>, now: seq<nat>)
    requires AddsUp(totals, before, first) && AddsUp(removed, now, before)
    ensures AddsUp(Plus(totals, removed), now, first)
    ensures Sum(removed) + Sum(now) == Sum(before)
  {
    SumsAddUp(removed, now, before);
  }

  lemma NothingLeft(c: Context, db: Db, totals: seq<nat>, first: seq<nat>)
    requires AddsUp(totals, Left(c, db), first) && forall s :: Unsettled(c, db, s) == {}
    ensures totals == first
  {
    assert forall i :: 0 <= i < |totals| ==> totals[i] == first[i] by {
      forall i | 0 <= i < |totals| ensures totals[i] == first[i] {
        assert Left(c, db)[i] == |Unsettled(c, db, ORDER[i])|;
      }
    }
  }

  lemma SizeSplits(whole: set<Key>, part: set<Key>)
    requires part <= whole
    ensures |part| + |whole - part| == |whole|
  {
    assert part + (whole - part) == whole;
  }

  /** Any `limit` rows of `rows`, or all of them when there are fewer. */
  method Limit(rows: set<Key>, limit: nat) returns (picked: set<Key>)
    ensures picked <= rows && |picked| == if |rows| < limit then |rows| else limit
  {
    picked := {};
    var rest := rows;
    while rest != {} && |picked| < limit
      invariant picked + rest == rows && picked !! rest && |picked| <= limit
      decreases |rest|
    {
      var k :| k in rest;
      picked, rest := picked + {k}, rest - {k};
    }
    assert |rows| == |picked| + |rest|;
  }

  datatype Outcome = Outcome(totals: seq<nat>, batches: nat, complete: bool, cancelled: bool, timedOut: bool)

  class Maintenance {
    const c: Context
    var db: Db

    constructor (c: Context, db: Db)
      ensures this.c == c && this.db == db
    {
      this.c, this.db := c, db;
    }

    /** One statement: its changes are just the rows it settles. */
    method Execute(st: Statement, limit: nat) returns (changes: nat)
      requires limit >= 1
      modifies this`db
      ensures OneShot(c, db) == OneShot(c, old(db))
      ensures changes + |Unsettled(c, db, st)| == |Unsettled(c, old(db), st)|
      ensures forall s :: s != st ==> Unsettled(c, db, s) == Unsettled(c, old(db), s)
      ensures changes == 0 ==> db == old(db) && Eligible(c, db, st) == {}
    {
      var picked := Limit(Eligible(c, db, st), limit);
      StatementKeepsOutcome(c, db, st, picked);
      SizeSplits(Unsettled(c, db, st), picked);
      db := Apply(c, db, st, picked);
      changes := |picked|;
    }

    /** pruneDatabaseTelemetry: every statement once, in one transaction. */
    method PruneTelemetry(batchSize: nat, runFileBatchSize: nat) returns (removed: seq<nat>)
      requires batchSize >= 1 && runFileBatchSize >= 1
      modifies this`db
      ensures OneShot(c, db) == OneShot(c, old(db))
      ensures AddsUp(removed, Left(c, db), Left(c, old(db)))
      ensures Sum(removed) == 0 ==> db == OneShot(c, db) && forall s :: Unsettled(c, db, s) == {}
    {
      removed := [];
      for i := 0 to |ORDER|
        invariant |removed| == i
        invariant OneShot(c, db) == OneShot(c, old(db))
        invariant forall j :: 0 <= j < i ==>
          removed[j] + |Unsettled(c, db, ORDER[j])| == |Unsettled(c, old(db), ORDER[j])|
        invariant forall j :: i <= j < |ORDER| ==> Unsettled(c, db, ORDER[j]) == Unsettled(c, old(db), ORDER[j])
        invariant Sum(removed) == 0 ==> db == old(db) && forall j :: 0 <= j < i ==> Eligible(c, db, ORDER[j]) == {}
      {
        OrderIsDistinct(i);
        var changes := Execute(ORDER[i], if ORDER[i] == RunFiles then runFileBatchSize else batchSize);
        assert (removed + [changes])[..i] == removed;
        removed := removed + [changes];
      }
      if Sum(removed) == 0 {
        forall st: Statement ensures Eligible(c, db, st) == {} {
          EveryStatementRuns(st);
        }
        QuietIsSettled(c, db);
      }
    }

    /** runDatabaseRetentionBatches. `stop` and `late` say, for each number of batches done,
        whether the caller asks to stop and whether the time budget is spent by then. */
    method RunBatches(batchSize: int, runFileBatchSize: int, maxBatches: int, stop: nat -> bool, late: nat -> bool)
      returns (r: Option<Outcome>)
      modifies this`db
      ensures r.Some? <==> 1 <= batchSize <= 10_000 && 1 <= runFileBatchSize <= 10_000 && 1 <= maxBatches <= 10_000
      ensures r.None? ==> db == old(db)
      ensures OneShot(c, db) == OneShot(c, old(db))
      ensures r.Some? ==> r.value.batches <= maxBatches && AddsUp(r.value.totals, Left(c, db), Left(c, old(db)))
      ensures r.Some? && r.value.complete ==> db == OneShot(c, old(db)) && r.value.totals == Left(c, old(db))
      ensures r.Some? && !r.value.complete ==>
                if r.value.cancelled then stop(r.value.batches)
                else if r.value.timedOut then late(r.value.batches) else r.value.batches == maxBatches
      ensures r.Some? && (forall n :: !stop(n) && !late(n)) && Sum(Left(c, old(db))) < maxBatches ==> r.value.complete
    {
      if !(1 <= batchSize <= 10_000 && 1 <= runFileBatchSize <= 10_000 && 1 <= maxBatches <= 10_000) { return None; }
      var totals: seq<nat> := seq(|ORDER|, _ => 0);
      var batches := 0;
      while batches < maxBatches
        invariant 0 <= batches <= maxBatches && |totals| == |ORDER|
        invariant OneShot(c, db) == OneShot(c, old(db))
        invariant AddsUp(totals, Left(c, db), Left(c, old(db)))
        invariant Sum(Left(c, db)) + batches <= Sum(Left(c, old(db)))
      {
        if stop(batches) { return Some(Outcome(totals, batches, false, true, false)); }
        if batches > 0 && late(batches) { return Some(Outcome(totals, batches, false, false, true)); }
        ghost var before := db;
        var removed := PruneTelemetry(batchSize, runFileBatchSize);
        CountsAccumulate(totals, removed, Left(c, old(db)), Left(c, before), Left(c, db));
        batches, totals := batches + 1, Plus(totals, removed);
        if Sum(removed) == 0 {
          NothingLeft(c, db, totals, Left(c, old(db)));
          return Some(Outcome(totals, batches, true, false, false));
        }
      }
      return Some(Outcome(totals, batches, false, false, false));
    }
  }

  lemma OrderIsDistinct(i: nat)
    requires i < |ORDER|
    ensures forall j :: 0 <= j < |ORDER| && j != i ==> ORDER[j] != ORDER[i]
  {
  }

  lemma EveryStatementRuns(st: Statement)
    ensures exists j :: 0 <= j < |ORDER| && ORDER[j] == st
  {
    assert ORDER[0] == RunFiles && ORDER[1] == Runs && ORDER[2] == RoutineAudit && ORDER[3] == SecurityAudit;
    assert ORDER[4] == Metrics && ORDER[5] == Summaries && ORDER[6] == AuthAudits && ORDER[7] == AuthSessions;
    assert ORDER[8] == AuthRecovery && ORDER[9] == PairingExpired && ORDER[10] == PairingHistory;
    assert ORDER[11] == ExternalRuns && ORDER[12] == Events;
  }
}
