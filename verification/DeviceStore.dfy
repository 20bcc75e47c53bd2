/** internal/devices.Store with its tables held in one place and changed statement by statement.

    A transaction saves the tables, writes them in place, and puts the saved ones back on any
    error (InTx). Each method is specified by the atomic step of `Tables` it performs; on a table
    nobody else is using, addresses come lowest first. */
module DeviceStore {
  import opened Common
  import opened Addressing
  import opened Tables
  import Allocator
  import Base64
  import Keys

  datatype StoreError =
    | MissingUser
    | InvalidName
    | InvalidPublicKey
    | KeyNotFound
    | KeyRejected(reason: KeyRejection)
    | PoolExhausted
    | PublicKeyTaken
    | CredentialTaken
    | DeviceNotFound
    | DeviceRevoked
    | TokenInvalid
    | NegativeLimit

  datatype Assignment = Assignment(v4: Addr, v6: Option<Addr>)

  /** Which devices a caller may touch: their own, or all of them for an administrator. */
  datatype Scope = Scope(userId: Id, all: bool)

  predicate InScope(scope: Scope, row: Device) {
    scope.all || row.userId == scope.userId
  }

  const DEFAULT_EXPIRY: Time := 7 * 24 * 3600 * 1_000_000_000

  /** Both pools still have an address to give. */
  ghost predicate RoomFor(p: Pools, t: Snapshot)
    requires PoolsWellFormed(p)
  {
    && !Allocator.NoneFree(p.v4, t.allocations.Keys)
    && (p.v6.Some? ==> !Allocator.NoneFree(p.v6.value, t.allocations.Keys))
  }

  /** The addresses a quiet system assigns. */
  ghost predicate Lowest(p: Pools, t: Snapshot, a: Assignment)
    requires PoolsWellFormed(p)
  {
    && Allocator.IsLowest(p.v4, Allocator.TakenIn(p.v4, t.allocations.Keys), a.v4)
    && (a.v6.Some? <==> p.v6.Some?)
    && (a.v6.Some? ==>
          Allocator.IsLowest(p.v6.value, Allocator.TakenIn(p.v6.value, t.allocations.Keys), a.v6.value))
  }

  /** The key is there and can enrol one more device: not revoked, before its expiry, below its cap. */
  ghost predicate KeyUsable(t: Snapshot, via: Option<Redemption>, now: Time) {
    via.Some? ==>
      && via.value.key in t.keys
      && var k := t.keys[via.value.key];
         && k.revokedAt.None?
         && (k.expiresAt.Some? ==> now < k.expiresAt.value)
         && (k.maxUses == 0 || |EnrolledBy(t, via.value.key)| < k.maxUses)
  }

  function CreateOp(id: Id, userId: Id, publicKey: string, a: Assignment, via: Option<Redemption>, now: Time): Op {
    Create(id, userId, Keys.TrimSpace(publicKey), a.v4, a.v6, via, now)
  }

  class Store {
    const pools: Pools
    const broadcast: Addr
    var db: Snapshot

    ghost predicate Valid()
      reads this
    {
      && Consistent(pools, db)
      && broadcast == Addr(V4, Last(pools.v4))
    }

    constructor (pools: Pools)
      requires PoolsWellFormed(pools)
      ensures Valid() && db == EMPTY && this.pools == pools
    {
      this.pools := pools;
      this.db := EMPTY;
      var last := LastAddr(pools.v4);
      this.broadcast := last;
      EmptyIsConsistent(pools);
    }

    /** consumeSetupKey inside a transaction; reports why it refuses, from a fresh read. */
    method ConsumeSetupKey(key: Id, now: Time) returns (r: Result<(), StoreError>)
      requires key in db.keys ==> KeyAccounted(db, key)
      modifies this`db
      ensures r.Ok? <==>
              && key in old(db).keys && old(db).keys[key].revokedAt.None?
              && (old(db).keys[key].expiresAt.Some? ==> now < old(db).keys[key].expiresAt.value)
              && (old(db).keys[key].maxUses == 0 || |EnrolledBy(old(db), key)| < old(db).keys[key].maxUses)
      ensures r.Ok? ==>
                var k := old(db).keys[key]; db == old(db).(keys := old(db).keys[key := k.(uses := k.uses + 1)])
      ensures r.Err? ==> db == old(db)
      ensures r == Err(KeyNotFound) <==> key !in old(db).keys
      ensures r == Err(KeyRejected(KeyRevoked)) <==> key in old(db).keys && old(db).keys[key].revokedAt.Some?
      ensures r == Err(KeyRejected(KeyExpired)) <==>
              && key in old(db).keys && old(db).keys[key].revokedAt.None?
              && old(db).keys[key].expiresAt.Some? && now >= old(db).keys[key].expiresAt.value
      ensures r.Err? ==> r.error == KeyNotFound || r.error == KeyRejected(KeyRevoked)
                         || r.error == KeyRejected(KeyExpired) || r.error == KeyRejected(KeyExhausted)
    {
      if key !in db.keys {
        return Err(KeyNotFound);
      }
      if ConsumeGuard(db.keys[key], now) {
        db := db.(keys := db.keys[key := Consumed(db.keys[key])]);
        return Ok(());
      }
      var reason := Redeemable(db.keys[key], now);
      return Err(KeyRejected(if reason.Some? then reason.value else KeyExhausted));
    }

    /** Allocate: one address per enabled family for a device that has none. */
    method Allocate(id: Id) returns (r: Result<Assignment, StoreError>)
      requires PoolsWellFormed(pools) && broadcast == Addr(V4, Last(pools.v4))
      requires forall a :: a in db.allocations ==> db.allocations[a] != id
      modifies this`db
      ensures r.Ok? <==> RoomFor(pools, old(db))
      ensures r.Err? ==> r.error == PoolExhausted
      ensures r.Ok? ==> Lowest(pools, old(db), r.value)
      ensures r.Ok? ==>
                && r.value.v4 !in old(db).allocations
                && (r.value.v6.Some? ==> r.value.v6.value !in old(db).allocations)
                && db == old(db).(allocations := old(db).allocations[r.value.v4 := id] +
                                    (if r.value.v6.Some? then map[r.value.v6.value := id] else map[]))
    {
      var v4 := Allocator.AllocateQuietly(pools.v4, broadcast, db.allocations.Keys);
      if v4.Err? {
        return Err(PoolExhausted);
      }
      var before := db;
      db := db.(allocations := db.allocations[v4.value := id]);
      if pools.v6.None? {
        assert before.allocations[v4.value := id] + map[] == before.allocations[v4.value := id];
        return Ok(Assignment(v4.value, None));
      }
      OtherFamilyUntouched(pools.v6.value, before.allocations, v4.value, id);
      var v6 := Allocator.AllocateQuietly(pools.v6.value, broadcast, db.allocations.Keys);
      if v6.Err? {
        return Err(PoolExhausted);
      }
      db := db.(allocations := db.allocations[v6.value := id]);
      assert before.allocations[v4.value := id][v6.value := id]
          == before.allocations[v4.value := id] + map[v6.value := id];
      return Ok(Assignment(v4.value, Some(v6.value)));
    }

    /** create: redeem the key if there is one, allocate, insert the device, insert its credential.
        Everything or nothing. */
    method CreateDevice(id: Id, userId: Id, name: string, publicKey: string, via: Option<Redemption>, now: Time)
      returns (r: Result<Assignment, StoreError>)
      requires Valid() && id !in db.devices
      requires via.Some? ==> IsDeviceToken(via.value.secret)
      requires via.Some? && via.value.key in db.keys ==> db.keys[via.value.key].createdBy == userId
      modifies this`db
      ensures Valid()
      ensures r.Err? ==> db == old(db)
      ensures r.Ok? ==>
                && Enabled(pools, old(db), CreateOp(id, userId, publicKey, r.value, via, now))
                && db == Effect(pools, old(db), CreateOp(id, userId, publicKey, r.value, via, now))
                && Lowest(pools, old(db), r.value)
      ensures r.Ok? ==>
                && id in db.devices && db.devices == old(db).devices[id := db.devices[id]]
                && db.devices[id] ==
                   Device(userId := userId, publicKey := Keys.TrimSpace(publicKey), ipv4 := Some(r.value.v4),
                          ipv6 := r.value.v6, enrolledWith := if via.Some? then Some(via.value.key) else None,
                          createdAt := now, lastSeenAt := None, revokedAt := None)
      ensures r.Ok? <==>
              && Keys.TrimSpace(name) != "" && Keys.IsPublicKey(Keys.TrimSpace(publicKey))
              && KeyUsable(old(db), via, now) && RoomFor(pools, old(db))
              && PublicKeyFree(old(db), Keys.TrimSpace(publicKey))
              && (via.Some? ==> SecretFree(old(db), via.value.secret))
      ensures r == Err(PublicKeyTaken) ==> !PublicKeyFree(old(db), Keys.TrimSpace(publicKey))
      ensures r == Err(PoolExhausted) ==> !RoomFor(pools, old(db))
      ensures r == Err(KeyNotFound) ==> via.Some? && via.value.key !in old(db).keys
      ensures r.Err? && r.error.KeyRejected? ==> !KeyUsable(old(db), via, now)
    {
      if Keys.TrimSpace(name) == "" {
        return Err(InvalidName);
      }
      var key := Keys.TrimSpace(publicKey);
      var wellFormed := Keys.ValidatePublicKey(key);
      if !wellFormed {
        return Err(InvalidPublicKey);
      }
      var saved := db;
      r := CreateInTx(id, userId, key, via, now);
      if r.Err? {
        db := saved;
      } else {
        StepKeepsConsistent(pools, saved, Create(id, userId, key, r.value.v4, r.value.v6, via, now));
      }
    }

    /** The function create hands to InTx. On an error it leaves its writes for InTx to undo. */
    method CreateInTx(id: Id, userId: Id, publicKey: string, via: Option<Redemption>, now: Time)
      returns (r: Result<Assignment, StoreError>)
      requires Valid() && id !in db.devices
      requires via.Some? ==> IsDeviceToken(via.value.secret)
      requires via.Some? && via.value.key in db.keys ==> db.keys[via.value.key].createdBy == userId
      modifies this`db
      ensures r.Ok? <==>
              && KeyUsable(old(db), via, now) && RoomFor(pools, old(db)) && PublicKeyFree(old(db), publicKey)
              && (via.Some? ==> SecretFree(old(db), via.value.secret))
      ensures r.Ok? ==>
                var op := Create(id, userId, publicKey, r.value.v4, r.value.v6, via, now);
                Enabled(pools, old(db), op) && db == Effect(pools, old(db), op) && Lowest(pools, old(db), r.value)
      ensures r == Err(PublicKeyTaken) ==> !PublicKeyFree(old(db), publicKey)
      ensures r == Err(PoolExhausted) ==> !RoomFor(pools, old(db))
      ensures r == Err(KeyNotFound) ==> via.Some? && via.value.key !in old(db).keys
      ensures r.Err? && r.error.KeyRejected? ==> !KeyUsable(old(db), via, now)
    {
      ghost var start := db;
      if via.Some? {
        if via.value.key in db.keys {
          UsesAreDevices(pools, db, via.value.key);
          RedeemableIs(db, via.value.key, now);
        }
        var consumed := ConsumeSetupKey(via.value.key, now);
        if consumed.Err? {
          return Err(consumed.error);
        }
      }
      assert db == AfterConsume(start, via);
      NoAddressYet(pools, start, id);
      r := Allocate(id);
      if r.Err? {
        return;
      }
      var op := Create(id, userId, publicKey, r.value.v4, r.value.v6, via, now);
      var inserted := InsertRows(op);
      if inserted.Err? {
        return Err(inserted.error);
      }
      assert db == Effect(pools, start, op);
    }

    /** The two inserts that end the transaction; the unique indexes decide. */
    method InsertRows(op: Op) returns (r: Result<(), StoreError>)
      requires op.Create?
      modifies this`db
      ensures r.Ok? <==>
              PublicKeyFree(old(db), op.publicKey) && (op.via.Some? ==> SecretFree(old(db), op.via.value.secret))
      ensures r.Ok? ==>
                db == old(db).(devices := old(db).devices[op.id := NewRow(op)],
                               tokens := if op.via.Some? then old(db).tokens[op.id := HashToken(op.via.value.secret)]
                                         else old(db).tokens)
      ensures r == Err(PublicKeyTaken) <==> !PublicKeyFree(old(db), op.publicKey)
      ensures r.Err? ==> r.error == PublicKeyTaken || r.error == CredentialTaken
    {
      if exists d :: d in db.devices && db.devices[d].publicKey == op.publicKey {
        return Err(PublicKeyTaken);
      }
      db := db.(devices := db.devices[op.id := NewRow(op)]);
      if op.via.Some? {
        if exists d :: d in db.tokens && db.tokens[d] == HashToken(op.via.value.secret) {
          return Err(CredentialTaken);
        }
        db := db.(tokens := db.tokens[op.id := HashToken(op.via.value.secret)]);
      }
      return Ok(());
    }

    method Register(id: Id, userId: Id, name: string, publicKey: string, now: Time)
      returns (r: Result<Assignment, StoreError>)
      requires Valid() && id !in db.devices
      modifies this`db
      ensures Valid()
      ensures r.Err? ==> db == old(db)
      ensures r.Ok? ==>
                && Enabled(pools, old(db), CreateOp(id, userId, publicKey, r.value, None, now))
                && db == Effect(pools, old(db), CreateOp(id, userId, publicKey, r.value, None, now))
                && Lowest(pools, old(db), r.value)
      ensures r.Ok? <==>
              && userId != "" && Keys.TrimSpace(name) != "" && Keys.IsPublicKey(Keys.TrimSpace(publicKey))
              && RoomFor(pools, old(db)) && PublicKeyFree(old(db), Keys.TrimSpace(publicKey))
      ensures r.Ok? ==>
                && id in db.devices && db.keys == old(db).keys && db.tokens == old(db).tokens
                && db.devices == old(db).devices[id := db.devices[id]]
                && db.devices[id] ==
                   Device(userId := userId, publicKey := Keys.TrimSpace(publicKey), ipv4 := Some(r.value.v4),
                          ipv6 := r.value.v6, enrolledWith := None,
                          createdAt := now, lastSeenAt := None, revokedAt := None)
      ensures r.Ok? ==> forall token :: !Authenticates(db, token, id)
    {
      if userId == "" {
        return Err(MissingUser);
      }
      r := CreateDevice(id, userId, name, publicKey, None, now);
    }

    method SetupKeyByToken(token: string) returns (r: Option<Id>)
      requires Valid()
      ensures forall k :: r == Some(k) <==> token != "" && k in db.keys && db.keys[k].keyHash == HashToken(token)
    {
      if !exists k :: k in db.keys && KeyNamed(db, token, k) {
        return None;
      }
      var k :| k in db.keys && KeyNamed(db, token, k);
      return Some(k);
    }

    /** Enroll: redeem the key with this token for one device, and mint the credential that from
        then on authenticates exactly that device. A failure spends nothing. */
    method Enroll(token: string, id: Id, random: seq<Base64.Byte>, name: string, publicKey: string, now: Time)
      returns (r: Result<(Assignment, string), StoreError>)
      requires Valid() && id !in db.devices && |random| == 32
      modifies this`db
      ensures Valid()
      ensures r.Err? ==> db == old(db)
      ensures r == Err(KeyNotFound) <==>
              token == "" || forall k :: k in old(db).keys ==> old(db).keys[k].keyHash != HashToken(token)
      ensures forall k :: token != "" && k in old(db).keys && old(db).keys[k].keyHash == HashToken(token) ==>
                EnrolAnswer(pools, old(db), db, k, id, random, name, publicKey, now, r)
    {
      var found := SetupKeyByToken(token);
      if found.None? {
        return Err(KeyNotFound);
      }
      ghost var start := db;
      OneKeyPerToken(db, found.value);
      r := EnrollWith(found.value, id, random, name, publicKey, now);
      forall k | k in start.keys && start.keys[k].keyHash == HashToken(token)
        ensures EnrolAnswer(pools, start, db, k, id, random, name, publicKey, now, r)
      {
        assert k == found.value;
      }
    }

    /** Enroll once the key is known. */
    method EnrollWith(k: Id, id: Id, random: seq<Base64.Byte>, name: string, publicKey: string, now: Time)
      returns (r: Result<(Assignment, string), StoreError>)
      requires Valid() && id !in db.devices && |random| == 32 && k in db.keys
      modifies this`db
      ensures Valid()
      ensures r.Err? ==> db == old(db) && r.error != KeyNotFound
      ensures EnrolAnswer(pools, old(db), db, k, id, random, name, publicKey, now, r)
    {
      var rejected := Redeemable(db.keys[k], now);
      UsesAreDevices(pools, db, k);
      RedeemableIs(db, k, now);
      if rejected.Some? {
        return Err(KeyRejected(rejected.value));
      }
      MintedTokenIsValid(random);
      var secret := DeviceTokenOf(random);
      ghost var start := db;
      var created := CreateDevice(id, db.keys[k].createdBy, name, publicKey, Some(Redemption(k, secret)), now);
      if created.Err? {
        return Err(created.error);
      }
      assert Enrolling(pools, start, db, k, id, publicKey, (created.value, secret), now);
      return Ok((created.value, secret));
    }

    /** Revoke: release the addresses, mark the row, drop the credential. */
    method Revoke(id: Id, scope: Scope, now: Time) returns (r: Result<(), StoreError>)
      requires Valid()
      modifies this`db
      ensures Valid()
      ensures r.Err? ==> db == old(db)
      ensures r == Err(DeviceNotFound) <==>
              id !in old(db).devices || (!scope.all && old(db).devices[id].userId != scope.userId)
      ensures r == Err(DeviceRevoked) <==>
              && id in old(db).devices && (scope.all || old(db).devices[id].userId == scope.userId)
              && old(db).devices[id].revokedAt.Some?
      ensures r.Ok? <==>
              && id in old(db).devices && (scope.all || old(db).devices[id].userId == scope.userId)
              && old(db).devices[id].revokedAt.None?
      ensures r.Ok? && !scope.all ==> old(db).devices[id].userId == scope.userId
      ensures r.Ok? ==> db == Effect(pools, old(db), Op.Revoke(id, now))
      ensures r.Ok? ==>
                && db.keys == old(db).keys && db.tokens == old(db).tokens - {id}
                && db.devices == old(db).devices[id := old(db).devices[id].(revokedAt := Some(now),
                                                                             ipv4 := None, ipv6 := None)]
                && (forall a :: a in db.allocations <==> a in old(db).allocations && old(db).allocations[a] != id)
                && (forall a :: a in db.allocations ==> db.allocations[a] == old(db).allocations[a])
      ensures r.Ok? ==> old(db).devices[id].ipv4.Some? && old(db).devices[id].ipv4.value !in db.allocations
    {
      if id !in db.devices || !InScope(scope, db.devices[id]) {
        return Err(DeviceNotFound);
      }
      if !db.devices[id].Live() {
        return Err(DeviceRevoked);
      }
      ghost var start := db;
      assert DeviceAddressed(pools, start, id);
      db := db.(allocations := map a | a in db.allocations && db.allocations[a] != id :: db.allocations[a]);
      db := db.(devices := db.devices[id := RevokedRow(db.devices[id], now)]);
      db := db.(tokens := db.tokens - {id});
      assert db == Effect(pools, start, Op.Revoke(id, now));
      StepKeepsConsistent(pools, start, Op.Revoke(id, now));
      return Ok(());
    }

    /** RecordSeen: stamps a live device, silently ignores any other. */
    method RecordSeen(id: Id, now: Time)
      requires Valid()
      modifies this`db
      ensures Valid()
      ensures db == if id in old(db).devices && old(db).devices[id].revokedAt.None? then
                      old(db).(devices := old(db).devices[id := old(db).devices[id].(lastSeenAt := Some(now))])
                    else old(db)
    {
      if id in db.devices && db.devices[id].Live() {
        StepKeepsConsistent(pools, db, Seen(id, now));
        db := db.(devices := db.devices[id := db.devices[id].(lastSeenAt := Some(now))]);
      }
    }

    method Authenticate(token: string) returns (r: Result<Id, StoreError>)
      requires Valid()
      ensures forall d :: r == Ok(d) <==> Authenticates(db, token, d)
      ensures r.Err? ==> r.error == TokenInvalid
    {
      if !IsDeviceToken(token) || !exists d :: d in db.devices && Authenticates(db, token, d) {
        return Err(TokenInvalid);
      }
      var d :| d in db.devices && Authenticates(db, token, d);
      CredentialAgreement(pools, db, d);
      return Ok(d);
    }

    /** Heartbeat: the write itself checks credential and revocation. */
    method Heartbeat(token: string, now: Time) returns (r: Result<Id, StoreError>)
      requires Valid()
      modifies this`db
      ensures Valid()
      ensures forall d :: r == Ok(d) <==> Authenticates(old(db), token, d)
      ensures r.Err? ==> db == old(db)
      ensures r.Ok? ==>
                && r.value in old(db).devices
                && db == old(db).(devices := old(db).devices[r.value :=
                                               old(db).devices[r.value].(lastSeenAt := Some(now))])
    {
      r := Authenticate(token);
      if r.Ok? {
        StepKeepsConsistent(pools, db, Seen(r.value, now));
        db := db.(devices := db.devices[r.value := db.devices[r.value].(lastSeenAt := Some(now))]);
      }
    }

    /** CreateSetupKey. The fresh token's hash is new, as NewToken's randomness makes it. A key that
        is created is redeemable from then until its expiry. */
    method CreateSetupKey(id: Id, createdBy: Id, secret: string, expiresIn: Time, neverExpires: bool, maxUses: int,
                          now: Time)
      returns (r: Result<(), StoreError>)
      requires Valid() && id !in db.keys
      requires forall k :: k in db.keys ==> db.keys[k].keyHash != HashToken(secret)
      modifies this`db
      ensures Valid()
      ensures r.Ok? <==> createdBy != "" && maxUses >= 0 && expiresIn >= 0
      ensures r.Err? ==> db == old(db)
      ensures r.Ok? ==> id in db.keys && db == old(db).(keys := old(db).keys[id := db.keys[id]])
      ensures r.Ok? ==>
                db.keys[id] ==
                SetupKey(keyHash := HashToken(secret), createdBy := createdBy, maxUses := maxUses, uses := 0,
                         revokedAt := None,
                         expiresAt := if neverExpires then None
                                      else Some(now + (if expiresIn == 0 then 7 * 24 * 3600 * 1_000_000_000
                                                       else expiresIn)))
      ensures r.Ok? ==>
                forall at :: Redeemable(db.keys[id], at).None? <==>
                             neverExpires || at < now + (if expiresIn == 0 then DEFAULT_EXPIRY else expiresIn)
    {
      if createdBy == "" {
        return Err(MissingUser);
      }
      if maxUses < 0 || expiresIn < 0 {
        return Err(NegativeLimit);
      }
      var lifetime := if expiresIn == 0 then DEFAULT_EXPIRY else expiresIn;
      var expiry := if neverExpires then None else Some(now + lifetime);
      var key := SetupKey(HashToken(secret), createdBy, expiry, maxUses, 0, None);
      StepKeepsConsistent(pools, db, CreateKey(id, key));
      db := db.(keys := db.keys[id := key]);
      return Ok(());
    }

    /** RevokeSetupKey: revoking twice is not an error and keeps the first time. */
    method RevokeSetupKey(id: Id, now: Time) returns (r: Result<(), StoreError>)
      requires Valid()
      modifies this`db
      ensures Valid()
      ensures r.Ok? <==> id in old(db).keys
      ensures r.Err? ==> r.error == KeyNotFound
      ensures db == if id in old(db).keys && old(db).keys[id].revokedAt.None? then
                      old(db).(keys := old(db).keys[id := old(db).keys[id].(revokedAt := Some(now))])
                    else old(db)
    {
      if id in db.keys && db.keys[id].revokedAt.None? {
        StepKeepsConsistent(pools, db, RevokeKey(id, now));
        db := db.(keys := db.keys[id := db.keys[id].(revokedAt := Some(now))]);
        return Ok(());
      }
      if id in db.keys {
        return Ok(());
      }
      return Err(KeyNotFound);
    }
  }

  /** The token an enroller presents names this key. */
  predicate KeyNamed(t: Snapshot, token: string, k: Id) {
    token != "" && k in t.keys && t.keys[k].keyHash == HashToken(token)
  }

  /** t became u by redeeming key k for device id, on behalf of whoever created the key. */
  ghost predicate Enrolling(p: Pools, t: Snapshot, u: Snapshot, k: Id, id: Id, publicKey: string,
                            got: (Assignment, string), now: Time)
    requires PoolsWellFormed(p) && k in t.keys
  {
    var op := CreateOp(id, t.keys[k].createdBy, publicKey, got.0, Some(Redemption(k, got.1)), now);
    Enabled(p, t, op) && u == Effect(p, t, op)
  }

  /** What an enrolment with key k answers and does, in terms of the rows alone. It succeeds exactly when
      the key is not revoked, not expired and has enrolled fewer devices than its cap, and device, pools and
      unique indexes allow it; a key that is turned away is turned away for the first of the three reasons
      that applies. A success adds a device of the key's creator and nothing else, counts one use and stores
      the returned credential, which authenticates the device. */
  ghost predicate EnrolAnswer(p: Pools, t: Snapshot, u: Snapshot, k: Id, id: Id, random: seq<Base64.Byte>,
                              name: string, publicKey: string, now: Time,
                              r: Result<(Assignment, string), StoreError>)
    requires PoolsWellFormed(p) && k in t.keys
  {
    var key := t.keys[k];
    var expired := key.expiresAt.Some? && now >= key.expiresAt.value;
    var spent := key.maxUses > 0 && |EnrolledBy(t, k)| >= key.maxUses;
    && (r.Ok? <==>
        && key.revokedAt.None? && !expired && !spent
        && Keys.TrimSpace(name) != "" && Keys.IsPublicKey(Keys.TrimSpace(publicKey))
        && RoomFor(p, t) && PublicKeyFree(t, Keys.TrimSpace(publicKey)) && SecretFree(t, DeviceTokenOf(random)))
    && (r == Err(KeyRejected(KeyRevoked)) <==> key.revokedAt.Some?)
    && (r == Err(KeyRejected(KeyExpired)) <==> key.revokedAt.None? && expired)
    && (r == Err(KeyRejected(KeyExhausted)) <==> key.revokedAt.None? && !expired && spent)
    && (r.Ok? ==>
          && r.value.1 == DeviceTokenOf(random) && Authenticates(u, r.value.1, id)
          && Lowest(p, t, r.value.0) && Enrolling(p, t, u, k, id, publicKey, r.value, now)
          && u.keys == t.keys[k := key.(uses := key.uses + 1)]
          && u.tokens == t.tokens[id := HashToken(r.value.1)]
          && u.devices ==
             t.devices[id :=
               Device(userId := key.createdBy, publicKey := Keys.TrimSpace(publicKey),
                      ipv4 := Some(r.value.0.v4), ipv6 := r.value.0.v6, enrolledWith := Some(k),
                      createdAt := now, lastSeenAt := None, revokedAt := None)])
  }

  function AfterConsume(t: Snapshot, via: Option<Redemption>): Snapshot
    requires via.Some? ==> via.value.key in t.keys
  {
    if via.Some? then t.(keys := t.keys[via.value.key := Consumed(t.keys[via.value.key])]) else t
  }

  lemma UsesAreDevices(p: Pools, t: Snapshot, k: Id)
    requires Consistent(p, t) && k in t.keys
    ensures KeyAccounted(t, k)
  {
  }

  lemma OneKeyPerToken(t: Snapshot, k: Id)
    requires KeysAccounted(t) && k in t.keys
    ensures forall l :: l in t.keys && t.keys[l].keyHash == t.keys[k].keyHash ==> l == k
  {
  }

  lemma NoAddressYet(p: Pools, t: Snapshot, id: Id)
    requires Consistent(p, t) && id !in t.devices
    ensures forall a :: a in t.allocations ==> t.allocations[a] != id
  {
    assert forall a :: a in t.allocations ==> AllocationOwned(t, a);
  }

  lemma OtherFamilyUntouched(pool: Prefix, allocations: map<Addr, Id>, a: Addr, id: Id)
    requires WellFormed(pool) && a.family != pool.addr.family
    ensures Allocator.TakenIn(pool, allocations[a := id].Keys) == Allocator.TakenIn(pool, allocations.Keys)
    ensures Allocator.NoneFree(pool, allocations[a := id].Keys) <==> Allocator.NoneFree(pool, allocations.Keys)
  {
    assert allocations[a := id].Keys == allocations.Keys + {a};
    assert forall b :: Usable(pool, b) ==> (b in allocations[a := id].Keys <==> b in allocations.Keys);
  }
}
