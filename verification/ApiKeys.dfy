/** API keys: issue, revoke, and rotation with a grace window. Times are microseconds. */
module ApiKeys {
  import opened Options
  import opened Logs
  import opened Calendar

  const HOUR := 3600 * SECOND

  type KeyId = nat

  /** A row of `api_keys`; its id is its place in the table, in order of creation. */
  datatype ApiKey = ApiKey(expiresAt: Option<int>, revokedAt: Option<int>, rotatedTo: Option<KeyId>)

  /** `is_valid_at` */
  predicate ValidAt(key: ApiKey, now: int) {
    key.revokedAt.None? && !(key.expiresAt.Some? && key.expiresAt.value <= now)
  }

  datatype Outcome = Done | NotFound | AlreadyRevoked

  // ---- The operations, on values ---------------------------------------------------------------

  function Created(expiresInDays: Option<nat>, now: int): ApiKey {
    ApiKey(if expiresInDays.Some? then Some(now + expiresInDays.value * DAY) else None, None, None)
  }

  function RevokedKey(key: ApiKey, now: int): ApiKey {
    if key.revokedAt.None? then key.(revokedAt := Some(now)) else key
  }

  /** The old key of a rotation: revoked at once without a grace period, else cut to the grace window
      unless it expires sooner. */
  function Graced(key: ApiKey, graceHours: nat, now: int): ApiKey {
    var graceExpiry := now + graceHours * HOUR;
    if graceHours == 0 then key.(revokedAt := Some(now))
    else if key.expiresAt.None? || key.expiresAt.value > graceExpiry then key.(expiresAt := Some(graceExpiry))
    else key
  }

  function Rotated(keys: seq<ApiKey>, id: KeyId, graceHours: nat, now: int): seq<ApiKey>
    requires id < |keys|
  {
    keys[id := Graced(keys[id], graceHours, now).(rotatedTo := Some(|keys|))] + [Created(None, now)]
  }

  // ---- The service -----------------------------------------------------------------------------

  /** `ApiKeyService` over its session: rows are changed in place. */
  class ApiKeyService {
    var keys: seq<ApiKey>

    constructor ()
      ensures keys == []
    {
      keys := [];
    }

    method CreateKey(expiresInDays: Option<nat>, now: int) returns (id: KeyId)
      modifies this
      ensures id == |old(keys)| && keys == old(keys) + [Created(expiresInDays, now)]
    {
      id := |keys|;
      keys := keys + [Created(expiresInDays, now)];
    }

    method RevokeKey(id: KeyId, now: int) returns (outcome: Outcome)
      modifies this
      ensures outcome == (if id < |old(keys)| then Done else NotFound)
      ensures keys == if id < |old(keys)| then old(keys)[id := RevokedKey(old(keys)[id], now)] else old(keys)
    {
      if id >= |keys| {
        return NotFound;
      }
      if keys[id].revokedAt.None? {
        keys := keys[id := keys[id].(revokedAt := Some(now))];
      }
      outcome := Done;
    }

    method RotateKey(id: KeyId, graceHours: nat, now: int) returns (outcome: Outcome)
      modifies this
      ensures outcome == (if id >= |old(keys)| then NotFound
                          else if old(keys)[id].revokedAt.Some? then AlreadyRevoked
                          else Done)
      ensures keys == if outcome.Done? then Rotated(old(keys), id, graceHours, now) else old(keys)
    {
      if id >= |keys| {
        return NotFound;
      }
      if keys[id].revokedAt.Some? {
        return AlreadyRevoked;
      }
      var issued := CreateKey(None, now);
      var graceExpiry := now + graceHours * HOUR;
      if graceHours == 0 {
        keys := keys[id := keys[id].(revokedAt := Some(now))];
      } else if keys[id].expiresAt.None? || keys[id].expiresAt.value > graceExpiry {
        keys := keys[id := keys[id].(expiresAt := Some(graceExpiry))];
      }
      keys := keys[id := keys[id].(rotatedTo := Some(issued))];
      outcome := Done;
    }
  }

  // ---- Runs ------------------------------------------------------------------------------------

  datatype Event =
    | Create(expiresInDays: Option<nat>, now: int)
    | Revoke(id: KeyId, now: int)
    | Rotate(id: KeyId, graceHours: nat, now: int)

  /** A failed operation changes nothing. */
  function Apply(keys: seq<ApiKey>, e: Event): seq<ApiKey> {
    match e
    case Create(days, now) => keys + [Created(days, now)]
    case Revoke(id, now) => if id < |keys| then keys[id := RevokedKey(keys[id], now)] else keys
    case Rotate(id, grace, now) =>
      if id < |keys| && keys[id].revokedAt.None? then Rotated(keys, id, grace, now) else keys
  }

  function Run(events: Log<Event>): seq<ApiKey> {
    match events
    case Empty => []
    case More(before, e) => Apply(Run(before), e)
  }

  // ---- The validity law ------------------------------------------------------------------------

  /** What one event means for the validity of a key at time t, on its own. */
  predicate Permits(keys: seq<ApiKey>, e: Event, id: KeyId, t: int) {
    match e
    case Create(days, now) => id == |keys| && days.Some? ==> t < now + days.value * 86_400_000_000
    case Revoke(k, _) => k != id || id >= |keys|
    case Rotate(k, grace, now) =>
      k == id && id < |keys| && keys[k].revokedAt.None? ==> grace > 0 && t < now + grace * 3_600_000_000
  }

  /** No event of the run speaks against the key at time t. */
  predicate Permitted(events: Log<Event>, id: KeyId, t: int) {
    events.More? ==> Permitted(events.before, id, t) && Permits(Run(events.before), events.last, id, t)
  }

  lemma {:induction false} NothingBeforeCreation(events: Log<Event>, id: KeyId, t: int)
    requires id >= |Run(events)|
    ensures Permitted(events, id, t)
  {
    if events.More? {
      NothingBeforeCreation(events.before, id, t);
    }
  }

  /** A key is valid at t exactly when its creation, and every later operation on it, permits it at t:
      it was never revoked or rotated without grace, and t is before its own expiry and before the
      end of the grace window of each of its rotations. */
  lemma {:induction false} ValidIffPermitted(events: Log<Event>, id: KeyId, t: int)
    requires id < |Run(events)|
    ensures ValidAt(Run(events)[id], t) <==> Permitted(events, id, t)
  {
    if id < |Run(events.before)| {
      ValidIffPermitted(events.before, id, t);
    } else {
      NothingBeforeCreation(events.before, id, t);
    }
  }

  lemma {:induction false} KeysStay(events: Log<Event>, later: Log<Event>)
    requires Extends(later, events)
    ensures |Run(events)| <= |Run(later)|
  {
    if later != events {
      KeysStay(events, later.before);
    }
  }

  lemma {:induction false} PermittedEarlier(events: Log<Event>, id: KeyId, t: int, t': int)
    requires t <= t' && Permitted(events, id, t')
    ensures Permitted(events, id, t)
  {
    if events.More? {
      PermittedEarlier(events.before, id, t, t');
    }
  }

  lemma {:induction false} PermittedByPart(events: Log<Event>, later: Log<Event>, id: KeyId, t: int)
    requires Extends(later, events) && Permitted(later, id, t)
    ensures Permitted(events, id, t)
  {
    if later != events {
      PermittedByPart(events, later.before, id, t);
    }
  }

  /** Once invalid, always invalid: however the run goes on, at every later time. */
  lemma {:induction false} InvalidForever(events: Log<Event>, later: Log<Event>, id: KeyId, t: int, t': int)
    requires id < |Run(events)| && !ValidAt(Run(events)[id], t)
    requires Extends(later, events) && t <= t'
    ensures id < |Run(later)| && !ValidAt(Run(later)[id], t')
  {
    KeysStay(events, later);
    ValidIffPermitted(events, id, t);
    ValidIffPermitted(later, id, t');
    if Permitted(later, id, t') {
      PermittedByPart(events, later, id, t');
      PermittedEarlier(events, id, t, t');
    }
  }

  /** A key rotated with grace g is invalid at every instant from now + g on, in every later state;
      and until then the rotation itself takes nothing away. */
  lemma {:induction false} GraceIsTheLimit(events: Log<Event>, later: Log<Event>, id: KeyId, graceHours: nat,
                                           now: int, t: int)
    requires id < |Run(events)| && Run(events)[id].revokedAt.None?
    requires Extends(later, More(events, Rotate(id, graceHours, now)))
    ensures now + graceHours * 3_600_000_000 <= t ==> id < |Run(later)| && !ValidAt(Run(later)[id], t)
    ensures graceHours > 0 && t < now + graceHours * 3_600_000_000 ==>
              var after := Run(More(events, Rotate(id, graceHours, now)));
              ValidAt(after[id], t) == ValidAt(Run(events)[id], t)
  {
    if now + graceHours * 3_600_000_000 <= t {
      InvalidForever(More(events, Rotate(id, graceHours, now)), later, id, t, t);
    }
  }

  /** The revocation time of a key is the instant of the operation that revoked it, a revocation or a
      rotation without grace, and is never changed. */
  lemma {:induction false} RevokedOnce(events: Log<Event>, e: Event, later: Log<Event>, id: KeyId)
    requires id < |Run(events)| && Extends(later, More(events, e))
    ensures var before, after := Run(events)[id], Run(More(events, e))[id];
            && (before.revokedAt.Some? ==> after.revokedAt == before.revokedAt)
            && (before.revokedAt.None? ==>
                  after.revokedAt == (if (e.Revoke? || (e.Rotate? && e.graceHours == 0)) && e.id == id then Some(e.now)
                                      else None))
            && id < |Run(later)| && (after.revokedAt.Some? ==> Run(later)[id].revokedAt == after.revokedAt)
  {
    if later != More(events, e) {
      RevokedOnce(events, e, later.before, id);
    }
  }

  // ---- Following rotated_to --------------------------------------------------------------------

  /** Successors are strictly newer. */
  ghost predicate PointsAhead(keys: seq<ApiKey>) {
    forall i | 0 <= i < |keys| && keys[i].rotatedTo.Some? :: i < keys[i].rotatedTo.value < |keys|
  }

  lemma {:induction false} RunPointsAhead(events: Log<Event>)
    ensures PointsAhead(Run(events))
  {
    if events.More? {
      RunPointsAhead(events.before);
    }
  }

  /** Where following `rotated_to` ends: at a key that was never rotated. */
  ghost function Newest(keys: seq<ApiKey>, id: KeyId): (last: KeyId)
    requires PointsAhead(keys) && id < |keys|
    ensures id <= last < |keys| && keys[last].rotatedTo.None?
    decreases |keys| - id
  {
    if keys[id].rotatedTo.Some? then Newest(keys, keys[id].rotatedTo.value) else id
  }

  /** The successor of a rotation is valid from the moment it is issued, and where the chain of the
      old key now leads. */
  lemma RotationLeadsToSuccessor(events: Log<Event>, id: KeyId, graceHours: nat, now: int, t: int)
    requires id < |Run(events)| && Run(events)[id].revokedAt.None?
    ensures var keys := Run(More(events, Rotate(id, graceHours, now)));
            && PointsAhead(keys) && Newest(keys, id) == |keys| - 1
            && ValidAt(keys[|keys| - 1], t)
  {
    RunPointsAhead(events);
    RunPointsAhead(More(events, Rotate(id, graceHours, now)));
    var keys := Run(More(events, Rotate(id, graceHours, now)));
    assert Newest(keys, |keys| - 1) == |keys| - 1;
  }
}
