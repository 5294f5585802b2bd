/**
 The permission and role cache: a loader that reads Redis, falls back to the database
 and writes the answer back, beside role changes that write the database and then
 delete the cached answers. Each Redis call and each query is one step.
 */
module PermissionCache {
  import opened Wrappers

  type Id = string
  type Millis = int
  type Answer = set<string>

  /* ---------- The database ---------- */

  datatype Tables = Tables(userRoles: map<Id, set<Id>>, roles: map<Id, Role>)

  datatype Role = Role(name: string, permissions: set<string>)

  datatype Key = Permissions(user: Id) | Roles(user: Id)

  function RolesOf(db: Tables, user: Id): set<Id> {
    set r | user in db.userRoles && r in db.userRoles[user] && r in db.roles
  }

  /** What one role contributes to an answer. */
  function Grants(role: Role, key: Key): set<string> {
    if key.Permissions? then role.permissions else {role.name}
  }

  /** GetUserPermissions and GetUserRoles. */
  function Query(db: Tables, key: Key): Answer {
    set r, x | r in RolesOf(db, key.user) && x in Grants(db.roles[r], key) :: x
  }

  datatype Change = Assign(user: Id, role: Id) | Revoke(user: Id, role: Id) | DeleteRole(role: Id)

  function Held(db: Tables, user: Id): set<Id> {
    if user in db.userRoles then db.userRoles[user] else {}
  }

  /** The rows one committed change leaves; None where the repository reports an error. */
  function Changed(db: Tables, change: Change): Option<Tables> {
    match change
    case Assign(user, role) =>
      if role !in db.roles || role in Held(db, user) then None
      else Some(db.(userRoles := db.userRoles[user := Held(db, user) + {role}]))
    case Revoke(user, role) =>
      if role !in db.roles || role !in Held(db, user) then None
      else Some(db.(userRoles := db.userRoles[user := Held(db, user) - {role}]))
    case DeleteRole(role) =>
      if role !in db.roles then None
      else Some(Tables(map u | u in db.userRoles :: db.userRoles[u] - {role}, db.roles - {role}))
  }

  /** The keys a change deletes from the cache afterwards; deleting a role deletes none. */
  function Invalidated(change: Change): set<Key> {
    match change
    case Assign(user, _) => {Permissions(user), Roles(user)}
    case Revoke(user, _) => {Permissions(user), Roles(user)}
    case DeleteRole(_) => {}
  }

  /** A change alters the answers about its own user only. */
  lemma OnlyItsUser(db: Tables, change: Change, key: Key)
    requires Changed(db, change).Some? && !change.DeleteRole? && key !in Invalidated(change)
    ensures Query(Changed(db, change).value, key) == Query(db, key)
  {
    var next := Changed(db, change).value;
    var user := key.user;
    assert user != change.user;
    assert RolesOf(next, user) == RolesOf(db, user);
  }

  /** Nobody else who is held grants x. */
  ghost predicate OnlySource(db: Tables, role: Id, key: Key, x: string) {
    && role in RolesOf(db, key.user) && x in Grants(db.roles[role], key)
    && forall r :: r in RolesOf(db, key.user) && r != role ==> x !in Grants(db.roles[r], key)
  }

  /** Deleting a role changes an answer exactly when the role was the only source of some part of it. */
  lemma DeleteRoleChanges(db: Tables, role: Id, key: Key)
    requires role in db.roles
    ensures Query(Changed(db, DeleteRole(role)).value, key) != Query(db, key) <==> exists x :: OnlySource(db, role, key, x)
  {
    var next := Changed(db, DeleteRole(role)).value;
    assert RolesOf(next, key.user) == RolesOf(db, key.user) - {role};
    assert Query(next, key) <= Query(db, key);
    if x :| x in Query(db, key) && x !in Query(next, key) {
      forall r | r in RolesOf(db, key.user) && r != role ensures x !in Grants(db.roles[r], key) {
        assert r in RolesOf(next, key.user) && next.roles[r] == db.roles[r];
      }
      assert OnlySource(db, role, key, x);
    }
    if x :| OnlySource(db, role, key, x) {
      assert x in Query(db, key) && x !in Query(next, key);
    }
  }

  /* ---------- What the changes do ---------- */

  predicate HasRole(db: Tables, user: Id, role: Id) {
    user in db.userRoles && role in db.userRoles[user]
  }

  /** The role exists and gives x: one of its permissions, or its name. */
  predicate Gives(db: Tables, role: Id, key: Key, x: string) {
    role in db.roles && if key.Permissions? then x in db.roles[role].permissions else x == db.roles[role].name
  }

  /** An answer is what the user's roles give. */
  lemma QueryMeans(db: Tables, key: Key, x: string)
    ensures x in Query(db, key) <==> exists r :: HasRole(db, key.user, r) && Gives(db, r, key, x)
  {
    if x in Query(db, key) {
      var r :| r in RolesOf(db, key.user) && x in Grants(db.roles[r], key);
      assert HasRole(db, key.user, r) && Gives(db, r, key, x);
    }
    if r :| HasRole(db, key.user, r) && Gives(db, r, key, x) {
      assert r in RolesOf(db, key.user) && x in Grants(db.roles[r], key);
    }
  }

  /** An assignment is accepted for an existing role that the user does not have, and adds what the role gives. */
  lemma AssignGrants(db: Tables, user: Id, role: Id)
    ensures Changed(db, Assign(user, role)).Some? <==> role in db.roles && !HasRole(db, user, role)
    ensures Changed(db, Assign(user, role)).Some? ==>
              var next := Changed(db, Assign(user, role)).value;
              && Query(next, Permissions(user)) == Query(db, Permissions(user)) + db.roles[role].permissions
              && Query(next, Roles(user)) == Query(db, Roles(user)) + {db.roles[role].name}
              && next.roles == db.roles
              && forall u, r :: HasRole(next, u, r) <==> HasRole(db, u, r) || (u == user && r == role)
  {
    if Changed(db, Assign(user, role)).Some? {
      var next := Changed(db, Assign(user, role)).value;
      forall key: Key, x | key.user == user ensures x in Query(next, key) <==> x in Query(db, key) || Gives(db, role, key, x) {
        QueryMeans(db, key, x);
        QueryMeans(next, key, x);
        if Gives(db, role, key, x) { assert HasRole(next, user, role) && Gives(next, role, key, x); }
        if r :| HasRole(db, user, r) && Gives(db, r, key, x) { assert HasRole(next, user, r) && Gives(next, r, key, x); }
      }
    }
  }

  /** A revocation is accepted for a role that the user has, and leaves what the other roles give. */
  lemma RevokeRemoves(db: Tables, user: Id, role: Id, key: Key, x: string)
    requires key.user == user
    ensures Changed(db, Revoke(user, role)).Some? <==> role in db.roles && HasRole(db, user, role)
    ensures Changed(db, Revoke(user, role)).Some? ==>
              var next := Changed(db, Revoke(user, role)).value;
              && (x in Query(next, key) <==> exists r :: r != role && HasRole(db, user, r) && Gives(db, r, key, x))
              && (x in Query(next, key) <==> x in Query(db, key) && !OnlySource(db, role, key, x))
              && next.roles == db.roles
              && forall u, r :: HasRole(next, u, r) <==> HasRole(db, u, r) && !(u == user && r == role)
  {
    if Changed(db, Revoke(user, role)).Some? {
      var next := Changed(db, Revoke(user, role)).value;
      QueryMeans(db, key, x);
      QueryMeans(next, key, x);
      if r :| HasRole(next, user, r) && Gives(next, r, key, x) {
        assert r != role && HasRole(db, user, r) && Gives(db, r, key, x);
      }
      if r :| r != role && HasRole(db, user, r) && Gives(db, r, key, x) {
        assert HasRole(next, user, r) && Gives(next, r, key, x);
        assert r in RolesOf(db, user) && x in Grants(db.roles[r], key);
      }
      if x in Query(db, key) && !OnlySource(db, role, key, x) {
        var r :| HasRole(db, user, r) && Gives(db, r, key, x);
        assert r in RolesOf(db, user) && x in Grants(db.roles[r], key);
      }
    }
  }

  /** A deletion is accepted for an existing role, and leaves every user what the other roles give. */
  lemma DeleteRoleRemoves(db: Tables, role: Id, key: Key, x: string)
    ensures Changed(db, DeleteRole(role)).Some? <==> role in db.roles
    ensures role in db.roles ==>
              var next := Changed(db, DeleteRole(role)).value;
              && (x in Query(next, key) <==> exists r :: r != role && HasRole(db, key.user, r) && Gives(db, r, key, x))
              && role !in next.roles
              && forall u, r :: HasRole(next, u, r) <==> HasRole(db, u, r) && r != role
  {
    if role in db.roles {
      var next := Changed(db, DeleteRole(role)).value;
      QueryMeans(next, key, x);
      if r :| HasRole(next, key.user, r) && Gives(next, r, key, x) {
        assert r != role && HasRole(db, key.user, r) && Gives(db, r, key, x);
      }
      if r :| r != role && HasRole(db, key.user, r) && Gives(db, r, key, x) {
        assert HasRole(next, key.user, r) && Gives(next, r, key, x);
      }
    }
  }

  /* ---------- Loaders and changes one after the other ---------- */

  /** expiresAt None: kept until deleted, which is what a time to live of zero asks Redis for. */
  datatype Cached = Cached(answer: Answer, expiresAt: Option<Millis>)
  {
    predicate Live(now: Millis) {
      expiresAt.Some? ==> now < expiresAt.value
    }
  }

  function Stored(answer: Answer, ttl: nat, now: Millis): Cached {
    Cached(answer, if ttl > 0 then Some(now + ttl) else None)
  }

  class Cache {
    const ttl: nat
    var entries: map<Key, Cached>

    constructor (ttl: nat)
      ensures this.ttl == ttl && entries == map[]
    {
      this.ttl, entries := ttl, map[];
    }

    function Lookup(key: Key, now: Millis): Option<Answer>
      reads this
    {
      if key in entries && entries[key].Live(now) then Some(entries[key].answer) else None
    }

    /** Whatever is still served from the cache is what the database says. */
    ghost predicate Fresh(db: Tables, now: Millis)
      reads this
    {
      forall key :: key in entries && entries[key].Live(now) ==> entries[key].answer == Query(db, key)
    }

    method Set(key: Key, answer: Answer, now: Millis)
      modifies this
      ensures entries == old(entries)[key := Stored(answer, ttl, now)]
    {
      entries := entries[key := Stored(answer, ttl, now)];
    }

    method Delete(key: Key)
      modifies this
      ensures entries == old(entries) - {key}
    {
      entries := entries - {key};
    }
  }

  /** Changes are written to db; loads read replica, which is db itself where no replica is configured. */
  class Service {
    var db: Tables
    var replica: Tables
    const cache: Cache

    constructor (db: Tables, cache: Cache)
      ensures this.db == this.replica == db && this.cache == cache
    {
      this.db, this.replica, this.cache := db, db, cache;
    }

    method CatchUp()
      modifies this`replica
      ensures replica == db
    {
      replica := db;
    }

    /** GetPermissions and GetRoles: cache, then replica, then write back. */
    method Load(key: Key, now: Millis) returns (answer: Answer)
      modifies cache
      ensures old(cache.Lookup(key, now)).Some? ==> answer == old(cache.Lookup(key, now)).value && cache.entries == old(cache.entries)
      ensures old(cache.Lookup(key, now)).None? ==>
                answer == Query(replica, key) && cache.entries == old(cache.entries)[key := Stored(answer, cache.ttl, now)]
      ensures old(cache.Fresh(replica, now)) ==> answer == Query(replica, key) && cache.Fresh(replica, now)
    {
      var hit := cache.Lookup(key, now);
      if hit.Some? { return hit.value; }
      answer := Query(replica, key);
      cache.Set(key, answer, now);
    }

    /** The role change, then the deletion of both cached answers of the user. */
    method Apply(change: Change, now: Millis) returns (ok: bool)
      modifies this`db, cache
      ensures ok <==> Changed(old(db), change).Some?
      ensures change.Assign? ==> (ok <==> change.role in old(db).roles && !HasRole(old(db), change.user, change.role))
      ensures change.Revoke? ==> (ok <==> change.role in old(db).roles && HasRole(old(db), change.user, change.role))
      ensures change.DeleteRole? ==> (ok <==> change.role in old(db).roles)
      ensures ok && change.Assign? ==>
                && Query(db, Permissions(change.user)) == Query(old(db), Permissions(change.user)) + old(db).roles[change.role].permissions
                && Query(db, Roles(change.user)) == Query(old(db), Roles(change.user)) + {old(db).roles[change.role].name}
      ensures ok ==> forall u, r :: HasRole(db, u, r) <==>
                match change
                case Assign(user, role) => HasRole(old(db), u, r) || (u == user && r == role)
                case Revoke(user, role) => HasRole(old(db), u, r) && !(u == user && r == role)
                case DeleteRole(role) => HasRole(old(db), u, r) && r != role
      ensures db == if ok then Changed(old(db), change).value else old(db)
      ensures cache.entries == if ok then old(cache.entries) - Invalidated(change) else old(cache.entries)
      ensures old(cache.Fresh(db, now)) && !change.DeleteRole? ==> cache.Fresh(db, now)
    {
      match change {
        case Assign(user, role) => AssignGrants(db, user, role);
        case Revoke(user, role) => RevokeRemoves(db, user, role, Permissions(user), "");
        case DeleteRole(role) => DeleteRoleRemoves(db, role, Permissions(""), "");
      }
      hide Query, Changed;
      var next := Changed(db, change);
      if next.None? { return false; }
      ghost var before := db;
      db := next.value;
      if !change.DeleteRole? {
        cache.Delete(Permissions(change.user));
        cache.Delete(Roles(change.user));
        forall key | key in cache.entries ensures Query(db, key) == Query(before, key) { OnlyItsUser(before, change, key); }
      }
      return true;
    }
  }

  /* ---------- Every Redis call and query a step of its own ---------- */

  type LoaderId = nat
  type WriterId = nat

  /** A state of the database, current since the given instant. */
  datatype Version = Version(db: Tables, since: Millis)

  /** A query answered by a version of the database at an instant. */
  datatype Reading = Reading(answer: Answer, version: nat, at: Millis)

  datatype Phase =
    | Missed
    | Read(reading: Reading)
    | Loaded(reading: Reading, endedAt: Millis)      // returned what it read
    | Hit(answer: Answer, at: Millis, origin: LoaderId)  // returned what that loader had cached
    | Failed

  datatype Loader = Loader(key: Key, phase: Phase)

  datatype Entry = Entry(cached: Cached, origin: LoaderId)

  /** pending: the keys a committed change still has to delete. */
  datatype State = State(
    ttl: nat,
    now: Millis,
    log: seq<Version>,
    entries: map<Key, Entry>,
    loaders: map<LoaderId, Loader>,
    pending: map<WriterId, seq<Key>>)

  datatype Step =
    | Get(l: LoaderId, key: Key, ok: bool)
    | ReadDb(l: LoaderId, v: nat, ok: bool)   // the replica may still show an earlier version v
    | Set(l: LoaderId, ok: bool)
    | Commit(w: WriterId, change: Change)
    | Delete(w: WriterId, ok: bool)
    | Tick(d: nat)

  predicate Enabled(s: State, step: Step) {
    match step
    case Get(l, _, _) => l !in s.loaders
    case ReadDb(l, v, _) => l in s.loaders && s.loaders[l].phase.Missed? && v < |s.log|
    case Set(l, _) => l in s.loaders && s.loaders[l].phase.Read?
    case Commit(w, _) => w !in s.pending && s.log != []
    case Delete(w, _) => w in s.pending && s.pending[w] != []
    case Tick(_) => true
  }

  function Current(s: State): Tables
    requires s.log != []
  {
    s.log[|s.log| - 1].db
  }

  /** Permissions first, then roles. */
  function Deletions(change: Change): seq<Key> {
    match change
    case Assign(user, _) => [Permissions(user), Roles(user)]
    case Revoke(user, _) => [Permissions(user), Roles(user)]
    case DeleteRole(_) => []
  }

  function Do(s: State, step: Step): State
    requires Enabled(s, step)
  {
    match step
    case Get(l, key, ok) =>
      if ok && key in s.entries && s.entries[key].cached.Live(s.now) then
        s.(loaders := s.loaders[l := Loader(key, Hit(s.entries[key].cached.answer, s.now, s.entries[key].origin))])
      else
        s.(loaders := s.loaders[l := Loader(key, Missed)])
    case ReadDb(l, v, ok) =>
      var key := s.loaders[l].key;
      var phase := if ok then Read(Reading(Query(s.log[v].db, key), v, s.now)) else Failed;
      s.(loaders := s.loaders[l := Loader(key, phase)])
    case Set(l, ok) =>
      var load := s.loaders[l];
      var done := s.(loaders := s.loaders[l := Loader(load.key, Loaded(load.phase.reading, s.now))]);
      if ok then done.(entries := s.entries[load.key := Entry(Stored(load.phase.reading.answer, s.ttl, s.now), l)]) else done
    case Commit(w, change) =>
      var next := Changed(Current(s), change);
      if next.None? then s.(pending := s.pending[w := []])
      else s.(log := s.log + [Version(next.value, s.now)], pending := s.pending[w := Deletions(change)])
    case Delete(w, ok) =>
      var rest := s.(pending := s.pending[w := s.pending[w][1..]]);
      if ok then rest.(entries := s.entries - {s.pending[w][0]}) else rest
    case Tick(d) => s.(now := s.now + d)
  }

  datatype Run = Run(states: seq<State>, steps: seq<Step>)
  {
    ghost predicate StepAt(i: nat)
      requires i < |steps| < |states|
    {
      Enabled(states[i], steps[i]) && states[i + 1] == Do(states[i], steps[i])
    }

    ghost predicate Valid() {
      && |states| == |steps| + 1
      && Initial(states[0])
      && forall i :: 0 <= i < |steps| ==> StepAt(i)
    }
  }

  ghost predicate Initial(s: State) {
    |s.log| == 1 && s.log[0].since <= s.now && s.entries == map[] && s.loaders == map[] && s.pending == map[]
  }

  /* ---------- A served answer was the database's own a short while ago ---------- */

  /** Version v was the current one at instant t. */
  ghost predicate CurrentAt(log: seq<Version>, v: nat, t: Millis) {
    v < |log| && log[v].since <= t && (v + 1 < |log| ==> t <= log[v + 1].since)
  }

  ghost predicate TrueAt(log: seq<Version>, key: Key, answer: Answer, t: Millis) {
    exists v: nat :: CurrentAt(log, v, t) && answer == Query(log[v].db, key)
  }

  /** The last instant up to a reading at which the version it saw was the current one. */
  function Until(log: seq<Version>, r: Reading): Millis {
    if r.version + 1 < |log| && log[r.version + 1].since < r.at then log[r.version + 1].since else r.at
  }

  /** How far behind the replica was. */
  function Lag(log: seq<Version>, r: Reading): Millis {
    r.at - Until(log, r)
  }

  ghost predicate ReadingSound(s: State, key: Key, r: Reading) {
    && r.version < |s.log| && s.log[r.version].since <= r.at <= s.now
    && r.answer == Query(s.log[r.version].db, key)
  }

  ghost predicate LoaderSound(s: State, load: Loader) {
    match load.phase
    case Read(r) => ReadingSound(s, load.key, r)
    case Loaded(r, endedAt) => ReadingSound(s, load.key, r) && r.at <= endedAt <= s.now
    case Hit(answer, at, origin) =>
      && CachedBy(s, load.key, answer, origin)
      && s.loaders[origin].phase.endedAt <= at
      && (s.ttl > 0 ==> at < s.loaders[origin].phase.endedAt + s.ttl)
    case _ => true
  }

  ghost predicate CachedBy(s: State, key: Key, answer: Answer, origin: LoaderId) {
    && origin in s.loaders && s.loaders[origin].key == key
    && s.loaders[origin].phase.Loaded? && s.loaders[origin].phase.reading.answer == answer
  }

  ghost predicate EntrySound(s: State, key: Key, e: Entry) {
    CachedBy(s, key, e.cached.answer, e.origin) && e.cached == Stored(e.cached.answer, s.ttl, s.loaders[e.origin].phase.endedAt)
  }

  ghost predicate Inv(s: State) {
    && s.log != []
    && (forall v :: 0 <= v < |s.log| ==> s.log[v].since <= s.now)
    && (forall v, w :: 0 <= v < w < |s.log| ==> s.log[v].since <= s.log[w].since)
    && (forall l :: l in s.loaders ==> LoaderSound(s, s.loaders[l]))
    && (forall key :: key in s.entries ==> EntrySound(s, key, s.entries[key]))
  }

  lemma ReadingStays(s: State, step: Step, key: Key, r: Reading)
    requires Inv(s) && Enabled(s, step) && ReadingSound(s, key, r)
    ensures ReadingSound(Do(s, step), key, r)
  {
    hide Query, Changed;
  }

  lemma LoaderStays(s: State, step: Step, l: LoaderId)
    requires Inv(s) && Enabled(s, step) && l in s.loaders
    requires !((step.ReadDb? || step.Set?) && step.l == l)
    ensures l in Do(s, step).loaders && Do(s, step).loaders[l] == s.loaders[l] && LoaderSound(Do(s, step), s.loaders[l])
  {
    hide Query, Changed, ReadingSound;
    assert LoaderSound(s, s.loaders[l]);
    if s.loaders[l].phase.Read? || s.loaders[l].phase.Loaded? { ReadingStays(s, step, s.loaders[l].key, s.loaders[l].phase.reading); }
  }

  lemma StepKeepsLoader(s: State, step: Step, l: LoaderId)
    requires Inv(s) && Enabled(s, step) && l in Do(s, step).loaders
    ensures LoaderSound(Do(s, step), Do(s, step).loaders[l])
  {
    hide Query, Changed;
    if l in s.loaders && !((step.ReadDb? || step.Set?) && step.l == l) {
      LoaderStays(s, step, l);
    } else if step.Set? {
      ReadingStays(s, step, s.loaders[l].key, s.loaders[l].phase.reading);
      assert LoaderSound(s, s.loaders[l]);
    } else if step.Get? && step.key in s.entries {
      assert EntrySound(s, step.key, s.entries[step.key]);
      assert LoaderSound(s, s.loaders[s.entries[step.key].origin]);
    }
  }

  lemma StepKeepsInv(s: State, step: Step)
    requires Inv(s) && Enabled(s, step)
    ensures Inv(Do(s, step))
  {
    hide Query, Changed, LoaderSound;
    var next := Do(s, step);
    forall l | l in next.loaders ensures LoaderSound(next, next.loaders[l]) { StepKeepsLoader(s, step, l); }
    forall key | key in next.entries ensures EntrySound(next, key, next.entries[key]) {
      if key in s.entries && next.entries[key] == s.entries[key] { assert EntrySound(s, key, s.entries[key]); }
    }
  }

  lemma {:induction false} RunKeepsInv(run: Run, i: nat)
    requires run.Valid() && i < |run.states|
    ensures Inv(run.states[i]) && run.states[i].ttl == run.states[0].ttl
  {
    if i > 0 {
      RunKeepsInv(run, i - 1);
      assert run.StepAt(i - 1);
      StepKeepsInv(run.states[i - 1], run.steps[i - 1]);
    }
  }

  /** Whatever fails and however loads and changes interleave: an answer served from the cache was the database's
      own as late as the replica lagged when some loader read it, and was cached less than the time to live before
      it was served. */
  lemma ServedWasTrue(run: Run, i: nat, l: LoaderId)
    requires run.Valid() && i < |run.states|
    requires l in run.states[i].loaders && run.states[i].loaders[l].phase.Hit?
    ensures var s := run.states[i];
            var hit := s.loaders[l];
            && CachedBy(s, hit.key, hit.phase.answer, hit.phase.origin)
            && var load := s.loaders[hit.phase.origin].phase;
               && TrueAt(s.log, hit.key, hit.phase.answer, Until(s.log, load.reading))
               && Until(s.log, load.reading) <= load.reading.at <= load.endedAt <= hit.phase.at
               && (s.ttl > 0 ==> hit.phase.at < load.endedAt + s.ttl)
  {
    RunKeepsInv(run, i);
    var s := run.states[i];
    assert LoaderSound(s, s.loaders[l]);
    var load := s.loaders[s.loaders[l].phase.origin];
    assert LoaderSound(s, load);
    assert CurrentAt(s.log, load.phase.reading.version, Until(s.log, load.phase.reading));
  }

  /** With a time to live, loads that take at most delay from query to write-back, and a replica at most lag behind,
      no answer is older than the three together. */
  lemma StalenessBound(run: Run, i: nat, l: LoaderId, delay: nat, lag: nat)
    requires run.Valid() && i < |run.states| && run.states[0].ttl > 0
    requires l in run.states[i].loaders && run.states[i].loaders[l].phase.Hit?
    requires forall o :: o in run.states[i].loaders && run.states[i].loaders[o].phase.Loaded? ==>
               && run.states[i].loaders[o].phase.endedAt <= run.states[i].loaders[o].phase.reading.at + delay
               && Lag(run.states[i].log, run.states[i].loaders[o].phase.reading) <= lag
    ensures var s := run.states[i];
            var hit := s.loaders[l];
            exists t :: hit.phase.at - s.ttl - delay - lag < t <= hit.phase.at && TrueAt(s.log, hit.key, hit.phase.answer, t)
  {
    ServedWasTrue(run, i, l);
    RunKeepsInv(run, i);
    var s := run.states[i];
    var t := Until(s.log, s.loaders[s.loaders[l].phase.origin].phase.reading);
    assert TrueAt(s.log, s.loaders[l].key, s.loaders[l].phase.answer, t);
  }

  /* ---------- What invalidation achieves, and what it does not ---------- */

  /** Neither the cache nor a load under way holds an answer for the key from before version v. */
  ghost predicate NothingOlder(s: State, key: Key, v: nat) {
    && v < |s.log|
    && (key in s.entries ==>
          && CachedBy(s, key, s.entries[key].cached.answer, s.entries[key].origin)
          && s.loaders[s.entries[key].origin].phase.reading.version >= v)
    && (forall l :: l in s.loaders && s.loaders[l].key == key && s.loaders[l].phase.Read? ==> s.loaders[l].phase.reading.version >= v)
  }

  /** The step does not read the key from a version before v. */
  predicate ReadsSince(s: State, step: Step, key: Key, v: nat) {
    step.ReadDb? && step.l in s.loaders && s.loaders[step.l].key == key ==> step.v >= v
  }

  lemma LoadKeepsNothingOlder(s: State, step: Step, key: Key, v: nat)
    requires NothingOlder(s, key, v) && Enabled(s, step) && ReadsSince(s, step, key, v)
    requires step.Get? || step.ReadDb? || step.Tick?
    ensures NothingOlder(Do(s, step), key, v)
  {
    hide Query, Changed;
  }

  lemma SetKeepsNothingOlder(s: State, step: Step, key: Key, v: nat)
    requires NothingOlder(s, key, v) && Enabled(s, step) && step.Set?
    ensures NothingOlder(Do(s, step), key, v)
  {
    hide Query, Changed;
  }

  lemma ChangeKeepsNothingOlder(s: State, step: Step, key: Key, v: nat)
    requires NothingOlder(s, key, v) && Enabled(s, step) && (step.Commit? || step.Delete?)
    ensures NothingOlder(Do(s, step), key, v)
  {
    hide Query, Changed;
  }

  lemma StepKeepsNothingOlder(s: State, step: Step, key: Key, v: nat)
    requires NothingOlder(s, key, v) && Enabled(s, step) && ReadsSince(s, step, key, v)
    ensures NothingOlder(Do(s, step), key, v)
  {
    hide NothingOlder, Do, Enabled;
    match step
    case Set(_, _) => SetKeepsNothingOlder(s, step, key, v);
    case Commit(_, _) => ChangeKeepsNothingOlder(s, step, key, v);
    case Delete(_, _) => ChangeKeepsNothingOlder(s, step, key, v);
    case Get(_, _, _) => LoadKeepsNothingOlder(s, step, key, v);
    case ReadDb(_, _, _) => LoadKeepsNothingOlder(s, step, key, v);
    case Tick(_) => LoadKeepsNothingOlder(s, step, key, v);
  }

  /** The answer comes from version v or a later one. */
  ghost predicate NoOlderThan(s: State, load: Loader, v: nat) {
    load.phase.Hit? ==>
      && CachedBy(s, load.key, load.phase.answer, load.phase.origin)
      && s.loaders[load.phase.origin].phase.reading.version >= v
  }

  lemma StepServesNothingOlder(s: State, step: Step, key: Key, v: nat, l: LoaderId)
    requires Inv(s) && NothingOlder(s, key, v) && Enabled(s, step)
    requires l in Do(s, step).loaders && Do(s, step).loaders[l].key == key
    requires l in s.loaders ==> NoOlderThan(s, s.loaders[l], v)
    ensures NoOlderThan(Do(s, step), Do(s, step).loaders[l], v)
  {
    hide Query, Changed, Inv;
  }

  /** Between i and j no load reads the key from a version before v: the replica has caught up that far. */
  ghost predicate AllReadSince(run: Run, i: nat, j: nat, key: Key, v: nat)
    requires j <= |run.steps| < |run.states|
  {
    forall k :: i <= k < j ==> ReadsSince(run.states[k], run.steps[k], key, v)
  }

  lemma {:induction false} KeepsNothingOlder(run: Run, i: nat, j: nat, key: Key, v: nat)
    requires run.Valid() && i <= j < |run.states| && NothingOlder(run.states[i], key, v) && AllReadSince(run, i, j, key, v)
    ensures NothingOlder(run.states[j], key, v)
    decreases j
  {
    hide NothingOlder, ReadsSince;
    if i < j {
      KeepsNothingOlder(run, i, j - 1, key, v);
      assert run.StepAt(j - 1);
      StepKeepsNothingOlder(run.states[j - 1], run.steps[j - 1], key, v);
    }
  }

  lemma {:induction false} NothingOlderIsServed(run: Run, i: nat, j: nat, key: Key, v: nat, l: LoaderId)
    requires run.Valid() && i <= j < |run.states|
    requires NothingOlder(run.states[i], key, v) && AllReadSince(run, i, j, key, v)
    requires l !in run.states[i].loaders && l in run.states[j].loaders && run.states[j].loaders[l].key == key
    ensures NoOlderThan(run.states[j], run.states[j].loaders[l], v)
    decreases j
  {
    hide Query, Changed, NothingOlder, NoOlderThan, Inv, ReadsSince;
    var before, step := run.states[j - 1], run.steps[j - 1];
    RunKeepsInv(run, j - 1);
    assert run.StepAt(j - 1);
    KeepsNothingOlder(run, i, j - 1, key, v);
    if l in before.loaders {
      KeysStay(before, step, l);
      NothingOlderIsServed(run, i, j - 1, key, v, l);
    }
    StepServesNothingOlder(before, step, key, v, l);
  }

  /** After a deletion that found no load under way with an answer from before version v, and as long as the replica
      shows version v or later to every further load, only version v or a later one is served for that key. */
  lemma InvalidationHolds(run: Run, i: nat, j: nat, w: WriterId, v: nat, l: LoaderId)
    requires run.Valid() && i < j < |run.states| && run.steps[i] == Delete(w, true)
    requires w in run.states[i].pending && run.states[i].pending[w] != [] && v < |run.states[i].log|
    requires forall o :: o in run.states[i].loaders && run.states[i].loaders[o].key == run.states[i].pending[w][0]
                         && run.states[i].loaders[o].phase.Read? ==>
               run.states[i].loaders[o].phase.reading.version >= v
    requires AllReadSince(run, i, j, run.states[i].pending[w][0], v)
    requires l !in run.states[i].loaders && l in run.states[j].loaders && run.states[j].loaders[l].key == run.states[i].pending[w][0]
    ensures NoOlderThan(run.states[j], run.states[j].loaders[l], v)
  {
    hide Query, Changed, NoOlderThan, ReadsSince;
    assert run.StepAt(i);
    NothingOlderIsServed(run, i + 1, j, run.states[i].pending[w][0], v, l);
  }

  lemma KeysStay(s: State, step: Step, l: LoaderId)
    requires Enabled(s, step) && l in s.loaders
    ensures l in Do(s, step).loaders && Do(s, step).loaders[l].key == s.loaders[l].key
  {
    hide Query, Changed;
  }

  /** A load that read before the change and writes back after the deletion puts the old answer into the cache
      again, for a whole time to live: the condition above cannot be dropped. */
  lemma OvertakenLoadRevives(s: State, l: LoaderId, next: LoaderId)
    requires Inv(s) && Enabled(s, Set(l, true)) && next !in s.loaders
    ensures var load := s.loaders[l];
            var later := Do(s, Set(l, true));
            && Enabled(later, Get(next, load.key, true))
            && Do(later, Get(next, load.key, true)).loaders[next].phase == Hit(load.phase.reading.answer, s.now, l)
  {
  }

  const KEY := Permissions("u")

  const GRANTED := Tables(map["u" := {"r"}], map["r" := Role("admin", {"p"})])

  const RACE: seq<Step> := [
    Get(0, KEY, true), ReadDb(0, 0, true), Commit(0, Revoke("u", "r")), Delete(0, true), Delete(0, true), Set(0, true), Get(1, KEY, true)]

  lemma RaceAnswers()
    ensures Query(GRANTED, KEY) == {"p"}
    ensures Changed(GRANTED, Revoke("u", "r")).Some? && Query(Changed(GRANTED, Revoke("u", "r")).value, KEY) == {}
  {
    assert RolesOf(GRANTED, "u") == {"r"};
    assert "p" in Grants(GRANTED.roles["r"], KEY);
    assert RolesOf(Changed(GRANTED, Revoke("u", "r")).value, "u") == {};
  }

  /** A whole run in which nothing fails: the role is revoked, both deletions succeed, and the permission it gave
      is served afterwards. */
  lemma RevokedAnswerReturns(ttl: nat, now: Millis) returns (run: Run)
    ensures run.Valid() && run.steps == RACE && run.states[0].ttl == ttl && run.states[0].now == now
    ensures |run.states| == 8
    ensures var s := run.states[7];
            && 1 in s.loaders && s.loaders[1].phase == Hit({"p"}, now, 0)
            && s.log != [] && Query(Current(s), KEY) == {}
  {
    hide Query, Changed;
    RaceAnswers();
    var s0 := State(ttl, now, [Version(GRANTED, now)], map[], map[], map[]);
    var s1 := Do(s0, RACE[0]);
    var s2 := Do(s1, RACE[1]);
    var s3 := Do(s2, RACE[2]);
    var s4 := Do(s3, RACE[3]);
    var s5 := Do(s4, RACE[4]);
    var s6 := Do(s5, RACE[5]);
    run := Run([s0, s1, s2, s3, s4, s5, s6, Do(s6, RACE[6])], RACE);
    forall i | 0 <= i < |RACE| ensures run.StepAt(i) { }
  }

  const LAGGING: seq<Step> := [
    Commit(0, Revoke("u", "r")), Delete(0, true), Delete(0, true), Get(0, KEY, true), ReadDb(0, 0, true), Set(0, true), Get(1, KEY, true)]

  /** Nor can the condition on the replica: no load is under way at either deletion and nothing fails, but the first
      load afterwards reads a replica that does not show the revocation yet, and caches what it read. */
  lemma LaggingReplicaReturns(ttl: nat, now: Millis) returns (run: Run)
    ensures run.Valid() && run.steps == LAGGING && run.states[0].ttl == ttl && run.states[0].now == now
    ensures |run.states| == 8 && run.states[3].loaders == map[]
    ensures var s := run.states[7];
            && 1 in s.loaders && s.loaders[1].phase == Hit({"p"}, now, 0)
            && s.log != [] && Query(Current(s), KEY) == {}
  {
    hide Query, Changed;
    RaceAnswers();
    var s0 := State(ttl, now, [Version(GRANTED, now)], map[], map[], map[]);
    var s1 := Do(s0, LAGGING[0]);
    var s2 := Do(s1, LAGGING[1]);
    var s3 := Do(s2, LAGGING[2]);
    var s4 := Do(s3, LAGGING[3]);
    var s5 := Do(s4, LAGGING[4]);
    var s6 := Do(s5, LAGGING[5]);
    run := Run([s0, s1, s2, s3, s4, s5, s6, Do(s6, LAGGING[6])], LAGGING);
    forall i | 0 <= i < |LAGGING| ensures run.StepAt(i) { }
  }

  /** Deleting a role deletes no cached answer: what was cached and true is served on, and is wrong exactly when
      the role was the only source of some part of it. */
  lemma DeletedRoleIsServedOn(s: State, w: WriterId, role: Id, key: Key, l: LoaderId, d: nat)
    requires Inv(s) && w !in s.pending && l !in s.loaders && role in Current(s).roles
    requires key in s.entries && s.entries[key].cached.answer == Query(Current(s), key) && s.entries[key].cached.Live(s.now + d)
    ensures var later := Do(Do(s, Commit(w, DeleteRole(role))), Tick(d));
            var served := Do(later, Get(l, key, true)).loaders[l].phase;
            && later.pending[w] == []
            && served.Hit? && served.answer == Query(Current(s), key)
            && (served.answer != Query(Current(later), key) <==> exists x :: OnlySource(Current(s), role, key, x))
  {
    DeleteRoleChanges(Current(s), role, key);
  }

  /** With a time to live of zero nothing ever expires. */
  lemma NoTtlNoExpiry(run: Run, i: nat, key: Key, d: nat)
    requires run.Valid() && i < |run.states| && run.states[0].ttl == 0
    requires key in run.states[i].entries
    ensures run.states[i].entries[key].cached.Live(run.states[i].now + d)
  {
    RunKeepsInv(run, i);
    assert EntrySound(run.states[i], key, run.states[i].entries[key]);
  }

  /* ---------- Loads and changes that do not overlap, over time ---------- */

  datatype Call = Load(l: LoaderId, key: Key) | Alter(w: WriterId, change: Change) | Wait(d: nat)

  /** Nothing fails, the replica is up to date, and a change is not over before both answers are deleted. */
  function Perform(s: State, call: Call): State
    requires Callable(s, call)
  {
    match call
    case Load(l, key) =>
      var looked := Do(s, Get(l, key, true));
      if looked.loaders[l].phase.Hit? then looked
      else Do(Do(looked, ReadDb(l, |s.log| - 1, true)), Set(l, true))
    case Alter(w, change) =>
      var committed := Do(s, Commit(w, change));
      if committed.pending[w] == [] then committed else Do(Do(committed, Delete(w, true)), Delete(w, true))
    case Wait(d) => Do(s, Tick(d))
  }

  predicate Callable(s: State, call: Call) {
    && s.log != []
    && (call.Load? ==> call.l !in s.loaders)
    && (call.Alter? ==> call.w !in s.pending)
  }

  datatype History = History(states: seq<State>, calls: seq<Call>)
  {
    ghost predicate CallAt(i: nat)
      requires i < |calls| < |states|
    {
      && Callable(states[i], calls[i]) && states[i + 1] == Perform(states[i], calls[i])
      && !(calls[i].Alter? && calls[i].change.DeleteRole?)
    }

    ghost predicate Valid() {
      && |states| == |calls| + 1
      && Initial(states[0])
      && forall i :: 0 <= i < |calls| ==> CallAt(i)
    }
  }

  /** Every answer that would be served is the database's. */
  ghost predicate InStep(s: State) {
    s.log != [] && forall key :: key in s.entries && s.entries[key].cached.Live(s.now) ==> s.entries[key].cached.answer == Query(Current(s), key)
  }

  lemma LoadKeepsInStep(s: State, l: LoaderId, key: Key)
    requires InStep(s) && Callable(s, Load(l, key))
    ensures var next := Perform(s, Load(l, key));
            && InStep(next)
            && Given(next.loaders, l) == Some(Query(Current(s), key))
  {
    hide Query, Changed;
  }

  /** What a load returned. */
  function Given(loaders: map<LoaderId, Loader>, l: LoaderId): Option<Answer> {
    if l !in loaders then None
    else
      match loaders[l].phase
      case Hit(answer, _, _) => Some(answer)
      case Loaded(reading, _) => Some(reading.answer)
      case _ => None
  }

  lemma AlterKeepsInStep(s: State, w: WriterId, change: Change)
    requires InStep(s) && Callable(s, Alter(w, change)) && !change.DeleteRole?
    ensures InStep(Perform(s, Alter(w, change)))
  {
    hide Query, Changed;
    var next := Perform(s, Alter(w, change));
    if Changed(Current(s), change).Some? {
      assert next.entries.Keys == s.entries.Keys - Invalidated(change);
      forall key | key in next.entries ensures Query(Current(next), key) == Query(Current(s), key) && next.entries[key] == s.entries[key] {
        OnlyItsUser(Current(s), change, key);
      }
    }
  }

  lemma {:induction false} HistoryInStep(h: History, i: nat)
    requires h.Valid() && i < |h.states|
    ensures InStep(h.states[i])
  {
    hide Query, Changed, Perform, InStep;
    if i == 0 {
      StartsInStep(h.states[0]);
    } else {
      HistoryInStep(h, i - 1);
      assert h.CallAt(i - 1);
      match h.calls[i - 1]
      case Load(l, key) => LoadKeepsInStep(h.states[i - 1], l, key);
      case Alter(w, change) => AlterKeepsInStep(h.states[i - 1], w, change);
      case Wait(d) => WaitKeepsInStep(h.states[i - 1], d);
    }
  }

  lemma StartsInStep(s: State)
    requires Initial(s)
    ensures InStep(s)
  {
  }

  lemma WaitKeepsInStep(s: State, d: nat)
    requires InStep(s)
    ensures InStep(Perform(s, Wait(d)))
  {
    hide Query;
  }

  /** Over any history of loads, assignments and revocations that do not overlap, at any times: every load returns
      what a direct query would. */
  lemma LoadsAreDirect(h: History, i: nat)
    requires h.Valid() && i < |h.calls| && h.calls[i].Load?
    ensures h.states[i].log != []
    ensures Given(h.states[i + 1].loaders, h.calls[i].l) == Some(Query(Current(h.states[i]), h.calls[i].key))
  {
    hide Query, Changed, Perform;
    HistoryInStep(h, i);
    assert h.CallAt(i);
    LoadKeepsInStep(h.states[i], h.calls[i].l, h.calls[i].key);
  }

  /** From call i + 1 to call j nothing changes the database. */
  ghost predicate OnlyLoads(h: History, i: nat, j: nat)
    requires j <= |h.calls|
  {
    forall k :: i < k < j ==> !h.calls[k].Alter?
  }

  lemma {:induction false} DatabaseStays(h: History, i: nat, j: nat)
    requires h.Valid() && i < j < |h.states| && OnlyLoads(h, i, j)
    ensures h.states[j].log == h.states[i + 1].log
    decreases j
  {
    hide Query, Changed;
    if i + 1 < j {
      DatabaseStays(h, i, j - 1);
      assert h.CallAt(j - 1);
    }
  }

  lemma AlterWrites(s: State, w: WriterId, change: Change)
    requires Callable(s, Alter(w, change)) && Changed(Current(s), change).Some?
    ensures Perform(s, Alter(w, change)).log != [] && Current(Perform(s, Alter(w, change))) == Changed(Current(s), change).value
  {
    hide Query, Changed;
  }

  /** The next load of a user who was given a role returns what he had before and what the role gives. */
  lemma AssignmentIsSeen(h: History, i: nat, j: nat, user: Id, role: Id)
    requires h.Valid() && i < j < |h.calls| && OnlyLoads(h, i, j) && h.states[i].log != []
    requires h.calls[i].Alter? && h.calls[i].change == Assign(user, role)
    requires role in Current(h.states[i]).roles && !HasRole(Current(h.states[i]), user, role)
    requires h.calls[j].Load? && h.calls[j].key.user == user
    ensures var db := Current(h.states[i]);
            var key := h.calls[j].key;
            Given(h.states[j + 1].loaders, h.calls[j].l)
            == Some(Query(db, key) + if key.Permissions? then db.roles[role].permissions else {db.roles[role].name})
  {
    hide Query, Changed, Perform;
    assert h.CallAt(i);
    AssignGrants(Current(h.states[i]), user, role);
    AlterWrites(h.states[i], h.calls[i].w, h.calls[i].change);
    DatabaseStays(h, i, j);
    LoadsAreDirect(h, j);
  }

  /** The next load of a user who lost a role returns what his other roles give. */
  lemma RevocationIsSeen(h: History, i: nat, j: nat, user: Id, role: Id, x: string)
    requires h.Valid() && i < j < |h.calls| && OnlyLoads(h, i, j) && h.states[i].log != []
    requires h.calls[i].Alter? && h.calls[i].change == Revoke(user, role)
    requires role in Current(h.states[i]).roles && HasRole(Current(h.states[i]), user, role)
    requires h.calls[j].Load? && h.calls[j].key.user == user
    ensures Given(h.states[j + 1].loaders, h.calls[j].l).Some?
    ensures x in Given(h.states[j + 1].loaders, h.calls[j].l).value
            <==> exists r :: r != role && HasRole(Current(h.states[i]), user, r) && Gives(Current(h.states[i]), r, h.calls[j].key, x)
  {
    hide Query, Changed, Perform;
    assert h.CallAt(i);
    RevokeRemoves(Current(h.states[i]), user, role, h.calls[j].key, x);
    AlterWrites(h.states[i], h.calls[i].w, h.calls[i].change);
    DatabaseStays(h, i, j);
    LoadsAreDirect(h, j);
  }

  /** A cache that cannot be read is passed by, and one that cannot be written changes nothing but the cache. */
  lemma CacheFailures(s: State, l: LoaderId, key: Key, v: nat)
    requires l !in s.loaders && v < |s.log|
    ensures var missed := Do(s, Get(l, key, false));
            && missed.loaders[l].phase == Missed && Enabled(missed, ReadDb(l, v, true))
            && var read := Do(missed, ReadDb(l, v, true));
               && Enabled(read, Set(l, false))
               && Given(Do(read, Set(l, false)).loaders, l) == Some(Query(s.log[v].db, key))
               && Do(read, Set(l, false)).entries == s.entries
  {
    hide Query;
  }
}
