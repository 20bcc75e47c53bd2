/** The four tables of the enrolment protocol, and every change of them as one atomic step.

    `Consistent` is what the tables promise each other. The schema supplies only the primary keys
    (address, device id, key id, token's device) and the unique indexes (public key, key hash,
    token hash); everything else in it is kept by the transactions. Instants are nanoseconds. */
module Tables {
  import opened Common
  import opened Addressing
  import Base64

  datatype Device = Device(
    userId: Id,
    publicKey: string,
    ipv4: Option<Addr>,
    ipv6: Option<Addr>,
    enrolledWith: Option<Id>,
    createdAt: Time,
    lastSeenAt: Option<Time>,
    revokedAt: Option<Time>)
  {
    predicate Live() {
      revokedAt.None?
    }
  }

  datatype SetupKey = SetupKey(
    keyHash: Hash,
    createdBy: Id,
    expiresAt: Option<Time>,
    maxUses: int,
    uses: int,
    revokedAt: Option<Time>)

  datatype Snapshot = Snapshot(
    devices: map<Id, Device>,
    allocations: map<Addr, Id>,
    keys: map<Id, SetupKey>,
    tokens: map<Id, Hash>)

  const EMPTY := Snapshot(map[], map[], map[], map[])

  /** The configured pools; `None` is an IPv4-only deployment. */
  datatype Pools = Pools(v4: Prefix, v6: Option<Prefix>)

  predicate PoolsWellFormed(p: Pools) {
    && WellFormed(p.v4) && p.v4.addr.family.V4?
    && (p.v6.Some? ==> WellFormed(p.v6.value) && p.v6.value.addr.family.V6?)
  }

  // ----- setup keys -----

  datatype KeyRejection = KeyRevoked | KeyExpired | KeyExhausted

  predicate Exhausted(k: SetupKey) {
    k.maxUses > 0 && k.uses >= k.maxUses
  }

  predicate Expired(k: SetupKey, now: Time) {
    k.expiresAt.Some? && now >= k.expiresAt.value
  }

  /** Why a key cannot be used, in the order the source reports it; `None` if it can be. */
  function Redeemable(k: SetupKey, now: Time): Option<KeyRejection> {
    if k.revokedAt.Some? then Some(KeyRevoked)
    else if Expired(k, now) then Some(KeyExpired)
    else if Exhausted(k) then Some(KeyExhausted)
    else None
  }

  /** The WHERE clause of the consuming UPDATE. */
  predicate ConsumeGuard(k: SetupKey, now: Time) {
    && k.revokedAt.None?
    && (k.expiresAt.None? || k.expiresAt.value > now)
    && (k.maxUses == 0 || k.uses < k.maxUses)
  }

  /** The SQL guard and the Go predicate agree exactly when the cap is not negative, or the row
      fails both tests anyway. Creation refuses negative caps. */
  lemma GuardIsRedeemable(k: SetupKey, now: Time)
    ensures (ConsumeGuard(k, now) <==> Redeemable(k, now).None?)
            <==> k.maxUses >= 0 || k.uses < k.maxUses || k.revokedAt.Some? || Expired(k, now)
    ensures k.maxUses >= 0 ==>
              (ConsumeGuard(k, now) <==>
               && k.revokedAt.None? && (k.expiresAt.Some? ==> now < k.expiresAt.value)
               && (k.maxUses == 0 || k.uses < k.maxUses))
  {
  }

  // ----- device credentials -----

  const DEVICE_TOKEN_PREFIX := "hnd_"

  /** validDeviceToken: the prefix, then 43 characters that strictly decode to 32 bytes. */
  predicate IsDeviceToken(token: string) {
    && |token| == |DEVICE_TOKEN_PREFIX| + 43
    && token[..|DEVICE_TOKEN_PREFIX|] == DEVICE_TOKEN_PREFIX
    && var raw := Base64.Decode(Base64.RAW_URL_STRICT, token[|DEVICE_TOKEN_PREFIX|..]);
       raw.Some? && |raw.value| == 32
  }

  function DeviceTokenOf(random: seq<Base64.Byte>): string {
    DEVICE_TOKEN_PREFIX + Base64.Encode(Base64.RAW_URL_STRICT, random)
  }

  /** A token minted from 32 random bytes is accepted by the credential check. */
  lemma MintedTokenIsValid(random: seq<Base64.Byte>)
    requires |random| == 32
    ensures IsDeviceToken(DeviceTokenOf(random))
  {
    Base64.RoundTrip(Base64.RAW_URL_STRICT, random);
    Base64.RawLength(Base64.RAW_URL_STRICT, random);
    var token := DeviceTokenOf(random);
    assert token[|DEVICE_TOKEN_PREFIX|..] == Base64.Encode(Base64.RAW_URL_STRICT, random);
  }

  /** Nothing else is: the check accepts exactly what 32 random bytes could have minted. */
  lemma DeviceTokensAre(token: string)
    ensures IsDeviceToken(token) <==> exists random :: |random| == 32 && token == DeviceTokenOf(random)
  {
    if IsDeviceToken(token) {
      var text := token[|DEVICE_TOKEN_PREFIX|..];
      var random := Base64.Decode(Base64.RAW_URL_STRICT, text).value;
      Base64.StripIdentity(text);
      Base64.StrictClean(Base64.RAW_URL_STRICT, Base64.Strip(text));
      Base64.RawLength(Base64.RAW_URL_STRICT, random);
      Base64.StripShortens(text);
      assert token == token[..|DEVICE_TOKEN_PREFIX|] + text;
      assert token == DeviceTokenOf(random);
    }
    forall random: seq<Base64.Byte> | |random| == 32 && token == DeviceTokenOf(random) ensures IsDeviceToken(token) {
      MintedTokenIsValid(random);
    }
  }

  // ----- consistency -----

  /** A live device owns exactly the addresses in its columns, one per enabled family; a revoked
      one has none. */
  predicate DeviceAddressed(p: Pools, t: Snapshot, d: Id)
    requires PoolsWellFormed(p) && d in t.devices
  {
    var row := t.devices[d];
    if row.Live() then
      && row.ipv4.Some? && Holds(p.v4, t, d, row.ipv4.value)
      && (row.ipv6.Some? <==> p.v6.Some?)
      && (row.ipv6.Some? ==> Holds(p.v6.value, t, d, row.ipv6.value))
    else
      row.ipv4.None? && row.ipv6.None?
  }

  predicate Holds(pool: Prefix, t: Snapshot, d: Id, a: Addr)
    requires WellFormed(pool)
  {
    Usable(pool, a) && a in t.allocations && t.allocations[a] == d
  }

  /** Every allocation belongs to a live device that lists it. */
  predicate AllocationOwned(t: Snapshot, a: Addr)
    requires a in t.allocations
  {
    var o := t.allocations[a];
    && o in t.devices && t.devices[o].Live()
    && (if a.family.V4? then t.devices[o].ipv4 else t.devices[o].ipv6) == Some(a)
  }

  ghost predicate Addressed(p: Pools, t: Snapshot)
    requires PoolsWellFormed(p)
  {
    && (forall d :: d in t.devices ==> DeviceAddressed(p, t, d))
    && (forall a :: a in t.allocations ==> AllocationOwned(t, a))
  }

  ghost predicate PublicKeysUnique(t: Snapshot) {
    forall d, e :: d in t.devices && e in t.devices && t.devices[d].publicKey == t.devices[e].publicKey ==> d == e
  }

  ghost function EnrolledBy(t: Snapshot, k: Id): set<Id> {
    set d | d in t.devices && t.devices[d].enrolledWith == Some(k)
  }

  /** A key's counter is the number of devices it enrolled, and respects a positive cap. */
  ghost predicate KeyAccounted(t: Snapshot, k: Id)
    requires k in t.keys
  {
    && t.keys[k].uses == |EnrolledBy(t, k)|
    && t.keys[k].maxUses >= 0
    && (t.keys[k].maxUses > 0 ==> t.keys[k].uses <= t.keys[k].maxUses)
  }

  /** The Go predicate in terms of the tables: revocation first, then expiry, then the devices the key has
      enrolled against its cap. */
  lemma RedeemableIs(t: Snapshot, k: Id, now: Time)
    requires k in t.keys && KeyAccounted(t, k)
    ensures Redeemable(t.keys[k], now) ==
            if t.keys[k].revokedAt.Some? then Some(KeyRevoked)
            else if t.keys[k].expiresAt.Some? && now >= t.keys[k].expiresAt.value then Some(KeyExpired)
            else if t.keys[k].maxUses > 0 && |EnrolledBy(t, k)| >= t.keys[k].maxUses then Some(KeyExhausted)
            else None
    ensures ConsumeGuard(t.keys[k], now) <==>
            && t.keys[k].revokedAt.None?
            && (t.keys[k].expiresAt.Some? ==> now < t.keys[k].expiresAt.value)
            && (t.keys[k].maxUses == 0 || |EnrolledBy(t, k)| < t.keys[k].maxUses)
  {
  }

  ghost predicate KeysAccounted(t: Snapshot) {
    && (forall k :: k in t.keys ==> KeyAccounted(t, k))
    && (forall d :: d in t.devices && t.devices[d].enrolledWith.Some? ==> t.devices[d].enrolledWith.value in t.keys)
    && (forall k, l :: k in t.keys && l in t.keys && t.keys[k].keyHash == t.keys[l].keyHash ==> k == l)
  }

  predicate Enrolled(t: Snapshot, d: Id) {
    d in t.devices && t.devices[d].Live() && t.devices[d].enrolledWith.Some?
  }

  /** Exactly the live enrolled devices have a credential, each its own. */
  ghost predicate Credentialed(t: Snapshot) {
    && (forall d :: d in t.tokens <==> Enrolled(t, d))
    && (forall d, e :: d in t.tokens && e in t.tokens && t.tokens[d] == t.tokens[e] ==> d == e)
    && (forall d :: d in t.tokens ==> IsDeviceToken(t.tokens[d].secret))
  }

  ghost predicate Consistent(p: Pools, t: Snapshot) {
    && PoolsWellFormed(p)
    && Addressed(p, t)
    && PublicKeysUnique(t)
    && KeysAccounted(t)
    && Credentialed(t)
  }

  lemma EmptyIsConsistent(p: Pools)
    requires PoolsWellFormed(p)
    ensures Consistent(p, EMPTY)
  {
  }

  // ----- atomic steps -----

  /** Redeeming a setup key together with the device secret minted for it. */
  datatype Redemption = Redemption(key: Id, secret: string)

  datatype Op =
    | Create(id: Id, userId: Id, publicKey: string, v4: Addr, v6: Option<Addr>, via: Option<Redemption>, now: Time)
    | Revoke(id: Id, now: Time)
    | CreateKey(id: Id, key: SetupKey)
    | RevokeKey(id: Id, now: Time)
    | Seen(id: Id, now: Time)

  ghost predicate PublicKeyFree(t: Snapshot, publicKey: string) {
    forall d :: d in t.devices ==> t.devices[d].publicKey != publicKey
  }

  ghost predicate SecretFree(t: Snapshot, secret: string) {
    forall d :: d in t.tokens ==> t.tokens[d] != HashToken(secret)
  }

  predicate Claimable(pool: Prefix, t: Snapshot, a: Addr)
    requires WellFormed(pool)
  {
    Usable(pool, a) && a !in t.allocations
  }

  ghost predicate Enabled(p: Pools, t: Snapshot, op: Op)
    requires PoolsWellFormed(p)
  {
    match op
    case Create(id, userId, publicKey, v4, v6, via, now) =>
      && id !in t.devices
      && PublicKeyFree(t, publicKey)
      && Claimable(p.v4, t, v4)
      && (v6.Some? <==> p.v6.Some?)
      && (v6.Some? ==> Claimable(p.v6.value, t, v6.value))
      && (via.Some? ==>
            && via.value.key in t.keys
            && t.keys[via.value.key].createdBy == userId
            && ConsumeGuard(t.keys[via.value.key], now)
            && SecretFree(t, via.value.secret)
            && IsDeviceToken(via.value.secret))
    case Revoke(id, now) => id in t.devices && t.devices[id].Live()
    case CreateKey(id, key) =>
      && id !in t.keys
      && key.uses == 0 && key.maxUses >= 0 && key.revokedAt.None?
      && forall k :: k in t.keys ==> t.keys[k].keyHash != key.keyHash
    case RevokeKey(id, now) => id in t.keys && t.keys[id].revokedAt.None?
    case Seen(id, now) => id in t.devices && t.devices[id].Live()
  }

  function NewRow(op: Op): Device
    requires op.Create?
  {
    Device(op.userId, op.publicKey, Some(op.v4), op.v6,
           if op.via.Some? then Some(op.via.value.key) else None, op.now, None, None)
  }

  function Consumed(k: SetupKey): SetupKey {
    k.(uses := k.uses + 1)
  }

  function RevokedRow(row: Device, now: Time): Device {
    row.(revokedAt := Some(now), ipv4 := None, ipv6 := None)
  }

  function Effect(p: Pools, t: Snapshot, op: Op): Snapshot
    requires PoolsWellFormed(p)
    requires op.Create? && op.via.Some? ==> op.via.value.key in t.keys
    requires op.Revoke? || op.Seen? ==> op.id in t.devices
    requires op.RevokeKey? ==> op.id in t.keys
  {
    match op
    case Create(id, userId, publicKey, v4, v6, via, now) =>
      Snapshot(t.devices[id := NewRow(op)],
               t.allocations[v4 := id] + (if v6.Some? then map[v6.value := id] else map[]),
               if via.Some? then t.keys[via.value.key := Consumed(t.keys[via.value.key])] else t.keys,
               if via.Some? then t.tokens[id := HashToken(via.value.secret)] else t.tokens)
    case Revoke(id, now) =>
      Snapshot(t.devices[id := RevokedRow(t.devices[id], now)],
               map a | a in t.allocations && t.allocations[a] != id :: t.allocations[a],
               t.keys,
               t.tokens - {id})
    case CreateKey(id, key) => t.(keys := t.keys[id := key])
    case RevokeKey(id, now) => t.(keys := t.keys[id := t.keys[id].(revokedAt := Some(now))])
    case Seen(id, now) => t.(devices := t.devices[id := t.devices[id].(lastSeenAt := Some(now))])
  }

  // ----- every step keeps the tables consistent -----

  lemma EnrolledByGrows(t: Snapshot, u: Snapshot, id: Id, k: Id)
    requires id !in t.devices && u.devices.Keys == t.devices.Keys + {id}
    requires forall d :: d in t.devices ==> u.devices[d].enrolledWith == t.devices[d].enrolledWith
    ensures |EnrolledBy(u, k)| == |EnrolledBy(t, k)| + (if u.devices[id].enrolledWith == Some(k) then 1 else 0)
  {
    var more := if u.devices[id].enrolledWith == Some(k) then {id} else {};
    forall d ensures d in EnrolledBy(u, k) <==> d in EnrolledBy(t, k) + more {
      assert d in u.devices <==> d in t.devices || d == id;
    }
    assert EnrolledBy(u, k) == EnrolledBy(t, k) + more;
  }

  lemma EnrolledBySame(t: Snapshot, u: Snapshot, k: Id)
    requires u.devices.Keys == t.devices.Keys
    requires forall d :: d in t.devices ==> u.devices[d].enrolledWith == t.devices[d].enrolledWith
    ensures EnrolledBy(u, k) == EnrolledBy(t, k)
  {
  }

  lemma CreateKeepsDevice(p: Pools, t: Snapshot, op: Op, d: Id)
    requires PoolsWellFormed(p) && op.Create? && Enabled(p, t, op)
    requires d in t.devices && DeviceAddressed(p, t, d)
    ensures DeviceAddressed(p, Effect(p, t, op), d)
  {
  }

  lemma CreateKeepsAllocation(p: Pools, t: Snapshot, op: Op, a: Addr)
    requires PoolsWellFormed(p) && op.Create? && Enabled(p, t, op)
    requires a in Effect(p, t, op).allocations
    requires a in t.allocations ==> AllocationOwned(t, a)
    ensures AllocationOwned(Effect(p, t, op), a)
  {
  }

  lemma CreateKeepsAddresses(p: Pools, t: Snapshot, op: Op)
    requires PoolsWellFormed(p) && Addressed(p, t) && op.Create? && Enabled(p, t, op)
    ensures Addressed(p, Effect(p, t, op))
  {
    var u := Effect(p, t, op);
    forall d | d in u.devices ensures DeviceAddressed(p, u, d) {
      if d != op.id {
        CreateKeepsDevice(p, t, op, d);
      }
    }
    forall a | a in u.allocations ensures AllocationOwned(u, a) {
      CreateKeepsAllocation(p, t, op, a);
    }
  }

  lemma CreateKeepsKey(p: Pools, t: Snapshot, op: Op, k: Id)
    requires PoolsWellFormed(p) && op.Create? && Enabled(p, t, op)
    requires k in t.keys && KeyAccounted(t, k)
    ensures KeyAccounted(Effect(p, t, op), k)
  {
    EnrolledByGrows(t, Effect(p, t, op), op.id, k);
  }

  lemma CreateKeepsKeys(p: Pools, t: Snapshot, op: Op)
    requires PoolsWellFormed(p) && KeysAccounted(t) && op.Create? && Enabled(p, t, op)
    ensures KeysAccounted(Effect(p, t, op))
  {
    var u := Effect(p, t, op);
    forall k | k in u.keys ensures KeyAccounted(u, k) {
      CreateKeepsKey(p, t, op, k);
    }
  }

  lemma CreateKeepsHolder(p: Pools, t: Snapshot, op: Op, d: Id)
    requires PoolsWellFormed(p) && op.Create? && Enabled(p, t, op)
    requires d in t.tokens <==> Enrolled(t, d)
    ensures d in Effect(p, t, op).tokens <==> Enrolled(Effect(p, t, op), d)
    ensures d in Effect(p, t, op).tokens ==>
              if d == op.id then op.via.Some? && Effect(p, t, op).tokens[d] == HashToken(op.via.value.secret)
              else d in t.tokens && Effect(p, t, op).tokens[d] == t.tokens[d]
  {
  }

  lemma CreateKeepsCredentials(p: Pools, t: Snapshot, op: Op)
    requires PoolsWellFormed(p) && Credentialed(t) && op.Create? && Enabled(p, t, op)
    ensures Credentialed(Effect(p, t, op))
  {
    var u := Effect(p, t, op);
    forall d
      ensures d in u.tokens <==> Enrolled(u, d)
      ensures d in u.tokens ==>
                if d == op.id then op.via.Some? && u.tokens[d] == HashToken(op.via.value.secret)
                else d in t.tokens && u.tokens[d] == t.tokens[d]
    {
      CreateKeepsHolder(p, t, op, d);
    }
  }

  lemma CreateKeepsPublicKeys(p: Pools, t: Snapshot, op: Op)
    requires PoolsWellFormed(p) && PublicKeysUnique(t) && op.Create? && Enabled(p, t, op)
    ensures PublicKeysUnique(Effect(p, t, op))
  {
  }

  lemma RevokeKeepsAddresses(p: Pools, t: Snapshot, op: Op)
    requires PoolsWellFormed(p) && Addressed(p, t) && op.Revoke? && Enabled(p, t, op)
    ensures Addressed(p, Effect(p, t, op))
  {
    var u := Effect(p, t, op);
    forall d | d in u.devices ensures DeviceAddressed(p, u, d) {
      assert DeviceAddressed(p, t, d);
    }
    forall a | a in u.allocations ensures AllocationOwned(u, a) {
      assert AllocationOwned(t, a);
    }
  }

  lemma RevokeKeepsKeys(p: Pools, t: Snapshot, op: Op)
    requires PoolsWellFormed(p) && KeysAccounted(t) && op.Revoke? && Enabled(p, t, op)
    ensures KeysAccounted(Effect(p, t, op))
  {
    var u := Effect(p, t, op);
    forall k | k in u.keys ensures KeyAccounted(u, k) {
      assert KeyAccounted(t, k);
      EnrolledBySame(t, u, k);
    }
  }

  lemma RevokeKeepsPublicKeys(p: Pools, t: Snapshot, op: Op)
    requires PoolsWellFormed(p) && PublicKeysUnique(t) && op.Revoke? && Enabled(p, t, op)
    ensures PublicKeysUnique(Effect(p, t, op))
  {
  }

  lemma RevokeKeepsCredentials(p: Pools, t: Snapshot, op: Op)
    requires PoolsWellFormed(p) && Credentialed(t) && op.Revoke? && Enabled(p, t, op)
    ensures Credentialed(Effect(p, t, op))
  {
    var u := Effect(p, t, op);
    forall d ensures d in u.tokens <==> Enrolled(u, d) {
      assert d in t.tokens <==> Enrolled(t, d);
    }
  }

  /** Steps that touch no address, no revocation and no credential leave those clauses alone. */
  lemma UntouchedRows(p: Pools, t: Snapshot, u: Snapshot)
    requires PoolsWellFormed(p) && Addressed(p, t) && PublicKeysUnique(t) && Credentialed(t)
    requires u.allocations == t.allocations && u.tokens == t.tokens && u.devices.Keys == t.devices.Keys
    requires forall d :: d in t.devices ==> u.devices[d] == t.devices[d].(lastSeenAt := u.devices[d].lastSeenAt)
    ensures Addressed(p, u) && PublicKeysUnique(u) && Credentialed(u)
  {
    forall d | d in u.devices ensures DeviceAddressed(p, u, d) {
      assert DeviceAddressed(p, t, d);
    }
    forall a | a in u.allocations ensures AllocationOwned(u, a) {
      assert AllocationOwned(t, a);
    }
    forall d ensures d in u.tokens <==> Enrolled(u, d) {
      assert d in t.tokens <==> Enrolled(t, d);
    }
  }

  lemma KeyStepsKeep(p: Pools, t: Snapshot, op: Op)
    requires PoolsWellFormed(p) && KeysAccounted(t) && Enabled(p, t, op)
    requires op.CreateKey? || op.RevokeKey? || op.Seen?
    ensures KeysAccounted(Effect(p, t, op))
  {
    var u := Effect(p, t, op);
    forall k | k in u.keys ensures KeyAccounted(u, k) {
      EnrolledBySame(t, u, k);
      if k in t.keys {
        assert KeyAccounted(t, k);
      } else {
        assert EnrolledBy(t, k) == {};
      }
    }
  }

  /** Every atomic step keeps the tables consistent. */
  lemma StepKeepsConsistent(p: Pools, t: Snapshot, op: Op)
    requires Consistent(p, t) && Enabled(p, t, op)
    ensures Consistent(p, Effect(p, t, op))
  {
    match op
    case Create(_, _, _, _, _, _, _) =>
      CreateKeepsAddresses(p, t, op);
      CreateKeepsKeys(p, t, op);
      CreateKeepsCredentials(p, t, op);
      CreateKeepsPublicKeys(p, t, op);
    case Revoke(_, _) =>
      RevokeKeepsAddresses(p, t, op);
      RevokeKeepsKeys(p, t, op);
      RevokeKeepsPublicKeys(p, t, op);
      RevokeKeepsCredentials(p, t, op);
    case _ =>
      KeyStepsKeep(p, t, op);
      UntouchedRows(p, t, Effect(p, t, op));
  }

  // ----- what no step ever undoes -----

  predicate DeviceAdvances(t: Snapshot, u: Snapshot, d: Id)
    requires d in t.devices
  {
    && d in u.devices
    && var before, after := t.devices[d], u.devices[d];
       && after.userId == before.userId && after.publicKey == before.publicKey
       && after.enrolledWith == before.enrolledWith && after.createdAt == before.createdAt
       && (!before.Live() ==> after == before)
       && (d in u.tokens ==> d in t.tokens && u.tokens[d] == t.tokens[d])
  }

  predicate KeyAdvances(t: Snapshot, u: Snapshot, k: Id)
    requires k in t.keys
  {
    && k in u.keys
    && var before, after := t.keys[k], u.keys[k];
       && after.keyHash == before.keyHash && after.createdBy == before.createdBy
       && after.expiresAt == before.expiresAt && after.maxUses == before.maxUses
       && before.uses <= after.uses
       && (before.revokedAt.Some? ==> after == before)
  }

  /** Rows are never removed or re-identified, a revoked row is frozen whole, a credential is
      never replaced or handed out later, counters only grow. */
  ghost predicate Advances(t: Snapshot, u: Snapshot) {
    && (forall d :: d in t.devices ==> DeviceAdvances(t, u, d))
    && (forall k :: k in t.keys ==> KeyAdvances(t, u, k))
  }

  lemma DeviceStepAdvances(p: Pools, t: Snapshot, op: Op, d: Id)
    requires PoolsWellFormed(p) && Enabled(p, t, op) && d in t.devices
    ensures DeviceAdvances(t, Effect(p, t, op), d)
  {
  }

  lemma KeyStepAdvances(p: Pools, t: Snapshot, op: Op, k: Id)
    requires PoolsWellFormed(p) && Enabled(p, t, op) && k in t.keys
    ensures KeyAdvances(t, Effect(p, t, op), k)
  {
  }

  /** No atomic step undoes anything. */
  lemma StepAdvances(p: Pools, t: Snapshot, op: Op)
    requires PoolsWellFormed(p) && Enabled(p, t, op)
    ensures Advances(t, Effect(p, t, op))
  {
    forall d | d in t.devices ensures DeviceAdvances(t, Effect(p, t, op), d) {
      DeviceStepAdvances(p, t, op, d);
    }
    forall k | k in t.keys ensures KeyAdvances(t, Effect(p, t, op), k) {
      KeyStepAdvances(p, t, op, k);
    }
  }

  lemma AdvancesTransitive(t: Snapshot, u: Snapshot, v: Snapshot)
    requires Advances(t, u) && Advances(u, v)
    ensures Advances(t, v)
  {
    forall d | d in t.devices ensures DeviceAdvances(t, v, d) {
      assert DeviceAdvances(t, u, d) && DeviceAdvances(u, v, d);
    }
    forall k | k in t.keys ensures KeyAdvances(t, v, k) {
      assert KeyAdvances(t, u, k) && KeyAdvances(u, v, k);
    }
  }

  // ----- reading the tables -----

  /** Authenticate returns device d for this token. */
  predicate Authenticates(t: Snapshot, token: string, d: Id) {
    IsDeviceToken(token) && d in t.devices && t.devices[d].Live() && d in t.tokens && t.tokens[d] == HashToken(token)
  }

  /** canAuthenticate, the web client's rule, which sees only the device record. */
  predicate CanAuthenticate(row: Device) {
    row.enrolledWith.Some? && row.revokedAt.None?
  }

  /** The web client's rule is right about every device, and no token speaks for two. */
  lemma CredentialAgreement(p: Pools, t: Snapshot, d: Id)
    requires Consistent(p, t) && d in t.devices
    ensures CanAuthenticate(t.devices[d]) <==> exists token :: Authenticates(t, token, d)
    ensures forall token, e :: Authenticates(t, token, d) && Authenticates(t, token, e) ==> d == e
  {
    assert d in t.tokens <==> Enrolled(t, d);
    if CanAuthenticate(t.devices[d]) {
      assert Authenticates(t, t.tokens[d].secret, d);
    }
  }

  /** No address has two holders, and a live device holds exactly one per enabled family. */
  lemma AddressesAreExclusive(p: Pools, t: Snapshot, d: Id, a: Addr)
    requires Consistent(p, t) && d in t.devices && t.devices[d].Live()
    ensures a in t.allocations && t.allocations[a] == d <==>
            t.devices[d].ipv4 == Some(a) || t.devices[d].ipv6 == Some(a)
    ensures forall e :: e in t.devices && e != d && (t.devices[e].ipv4 == Some(a) || t.devices[e].ipv6 == Some(a)) ==>
              t.devices[d].ipv4 != Some(a) && t.devices[d].ipv6 != Some(a)
  {
    assert DeviceAddressed(p, t, d);
    if a in t.allocations {
      assert AllocationOwned(t, a);
    }
    forall e | e in t.devices && e != d && (t.devices[e].ipv4 == Some(a) || t.devices[e].ipv6 == Some(a))
      ensures t.devices[d].ipv4 != Some(a) && t.devices[d].ipv6 != Some(a)
    {
      assert DeviceAddressed(p, t, e);
    }
  }
}
