/** Refresh-token families: login starts a family, rotation replaces its token, and replay, expiry,
    logout and password reset kill it. Operations are serial; a failed operation may or may not
    have its effects kept, because the request's session is rolled back on an error. Raw tokens
    stand for their hashes, and are fresh, as family ids and password hashes are. */
module RefreshTokens {
  import opened Options
  import opened Logs

  type UserId = nat
  type TokenId = nat

  /** A row of `refresh_tokens`; its id is its place in the table, in order of insertion. */
  datatype Token = Token(
    user: UserId, family: nat, secret: nat, expiresAt: int,
    revokedAt: Option<int>, rotatedTo: Option<TokenId>)

  datatype User = User(active: bool, passwordHash: nat)

  /** `hashes` are all password hashes ever made. */
  datatype State = State(tokens: seq<Token>, users: map<UserId, User>, hashes: set<nat>)

  const START := State([], map[], {})

  datatype Outcome = Ok | Invalid | Revoked | Expired | Unavailable

  /** What a decoded password-reset token claims: the user, and the password hash it is bound to. */
  datatype Claims = Claims(user: UserId, fingerprint: nat)

  // ---- The table -------------------------------------------------------------------------------

  function FindFrom(tokens: seq<Token>, secret: nat, from: nat): (r: Option<TokenId>)
    requires from <= |tokens|
    ensures r.Some? ==> from <= r.value < |tokens| && tokens[r.value].secret == secret
    ensures r.None? ==> forall i | from <= i < |tokens| :: tokens[i].secret != secret
    decreases |tokens| - from
  {
    if from == |tokens| then None
    else if tokens[from].secret == secret then Some(from)
    else FindFrom(tokens, secret, from + 1)
  }

  /** `get_by_hash` */
  function Find(tokens: seq<Token>, secret: nat): (r: Option<TokenId>)
    ensures r.Some? ==> r.value < |tokens| && tokens[r.value].secret == secret
    ensures r.None? ==> forall i | 0 <= i < |tokens| :: tokens[i].secret != secret
  {
    FindFrom(tokens, secret, 0)
  }

  function RevokeRow(t: Token, now: int): Token {
    if t.revokedAt.None? then t.(revokedAt := Some(now)) else t
  }

  /** Every unrevoked row that is selected is revoked. */
  function RevokeWhere(tokens: seq<Token>, selected: Token -> bool, now: int): (after: seq<Token>)
    ensures |after| == |tokens|
    ensures forall i | 0 <= i < |tokens| ::
              after[i] == if selected(tokens[i]) then RevokeRow(tokens[i], now) else tokens[i]
  {
    seq(|tokens|, i requires 0 <= i < |tokens| => if selected(tokens[i]) then RevokeRow(tokens[i], now) else tokens[i])
  }

  function OfFamily(family: nat): Token -> bool { (t: Token) => t.family == family }

  function OfUser(user: UserId): Token -> bool { (t: Token) => t.user == user }

  function Issue(user: UserId, family: nat, secret: nat, expiresAt: int): Token {
    Token(user, family, secret, expiresAt, None, None)
  }

  // ---- The operations, on values ---------------------------------------------------------------

  function Rotate(st: State, presented: nat, minted: nat, now: int, ttl: nat): (State, Outcome) {
    var found := Find(st.tokens, presented);
    if found.None? then (st, Invalid) else
      var id := found.value;
      var stored := st.tokens[id];
      if stored.revokedAt.Some? then
        (st.(tokens := RevokeWhere(st.tokens, OfFamily(stored.family), now)), Revoked)
      else if stored.expiresAt <= now then
        (st.(tokens := st.tokens[id := stored.(revokedAt := Some(now))]), Expired)
      else if stored.user !in st.users || !st.users[stored.user].active then (st, Unavailable)
      else
        var successor := Issue(stored.user, stored.family, minted, now + ttl);
        var rotated := stored.(revokedAt := Some(now), rotatedTo := Some(|st.tokens|));
        (st.(tokens := st.tokens[id := rotated] + [successor]), Ok)
  }

  function Logout(st: State, presented: nat, now: int): State {
    var found := Find(st.tokens, presented);
    if found.Some? then st.(tokens := st.tokens[found.value := RevokeRow(st.tokens[found.value], now)]) else st
  }

  function Reset(st: State, claims: Option<Claims>, newHash: nat, now: int): (State, Outcome) {
    if claims.None? || claims.value.user !in st.users then (st, Invalid) else
      var user := claims.value.user;
      if claims.value.fingerprint != st.users[user].passwordHash then (st, Invalid)
      else
        (State(RevokeWhere(st.tokens, OfUser(user), now),
               st.users[user := st.users[user].(passwordHash := newHash)], st.hashes + {newHash}), Ok)
  }

  // ---- The service -----------------------------------------------------------------------------

  /** `AuthService` over its session: rows are changed in place. */
  class AuthService {
    var tokens: seq<Token>
    var users: map<UserId, User>
    ghost var hashes: set<nat>
    const ttl: nat

    ghost function Value(): State reads this { State(tokens, users, hashes) }

    constructor (ttl: nat)
      ensures Value() == START && this.ttl == ttl
    {
      tokens, users, hashes, this.ttl := [], map[], {}, ttl;
    }

    method RevokeFamily(family: nat, now: int)
      modifies this
      ensures Value() == old(Value()).(tokens := RevokeWhere(old(tokens), OfFamily(family), now))
    {
      RevokeRows(OfFamily(family), now);
    }

    method RevokeRows(selected: Token -> bool, now: int)
      modifies `tokens
      ensures tokens == RevokeWhere(old(tokens), selected, now)
    {
      ghost var all, goal := tokens, RevokeWhere(tokens, selected, now);
      for i := 0 to |tokens|
        invariant |tokens| == |all|
        invariant forall j | 0 <= j < i :: tokens[j] == goal[j]
        invariant forall j | i <= j < |all| :: tokens[j] == all[j]
      {
        if selected(tokens[i]) && tokens[i].revokedAt.None? {
          tokens := tokens[i := tokens[i].(revokedAt := Some(now))];
        }
      }
      assert tokens == goal;
    }

    method IssueTokens(user: UserId, family: nat, minted: nat, now: int)
      modifies `tokens
      ensures tokens == old(tokens) + [Issue(user, family, minted, now + ttl)]
    {
      tokens := tokens + [Issue(user, family, minted, now + ttl)];
    }

    method RotateToken(presented: nat, minted: nat, now: int) returns (outcome: Outcome)
      requires forall i | 0 <= i < |tokens| :: tokens[i].secret != minted
      modifies this
      ensures (Value(), outcome) == Rotate(old(Value()), presented, minted, now, ttl)
    {
      var found := Find(tokens, presented);
      if found.None? {
        return Invalid;
      }
      var id := found.value;
      var stored := tokens[id];
      if stored.revokedAt.Some? {
        RevokeFamily(stored.family, now);
        return Revoked;
      }
      if stored.expiresAt <= now {
        tokens := tokens[id := stored.(revokedAt := Some(now))];
        return Expired;
      }
      if stored.user !in users || !users[stored.user].active {
        return Unavailable;
      }
      IssueTokens(stored.user, stored.family, minted, now);
      tokens := tokens[id := tokens[id].(revokedAt := Some(now))];
      var successor := Find(tokens, minted);
      assert tokens[|old(tokens)|].secret == minted && successor == Some(|old(tokens)|);
      tokens := tokens[id := tokens[id].(rotatedTo := successor)];
      assert tokens == Rotate(old(Value()), presented, minted, now, ttl).0.tokens;
      outcome := Ok;
    }

    method LogoutToken(presented: nat, now: int)
      modifies this
      ensures Value() == Logout(old(Value()), presented, now)
    {
      var found := Find(tokens, presented);
      if found.Some? && tokens[found.value].revokedAt.None? {
        tokens := tokens[found.value := tokens[found.value].(revokedAt := Some(now))];
      }
    }

    method ResetPassword(claims: Option<Claims>, newHash: nat, now: int) returns (outcome: Outcome)
      modifies this
      ensures (Value(), outcome) == Reset(old(Value()), claims, newHash, now)
    {
      if claims.None? || claims.value.user !in users {
        return Invalid;
      }
      var user := claims.value.user;
      if claims.value.fingerprint != users[user].passwordHash {
        return Invalid;
      }
      users := users[user := users[user].(passwordHash := newHash)];
      hashes := hashes + {newHash};
      RevokeRows(OfUser(user), now);
      outcome := Ok;
    }
  }

  // ---- Runs ------------------------------------------------------------------------------------

  /** `kept` says of a failed operation whether its session's effects survive. A login may rehash the
      password on its way. */
  datatype Event =
    | Register(user: UserId, hash: nat)
    | SetActive(user: UserId, active: bool)
    | Rehash(user: UserId, newHash: nat)
    | Login(user: UserId, family: nat, secret: nat, now: int, ttl: nat)
    | Rotation(presented: nat, minted: nat, now: int, ttl: nat, kept: bool)
    | LogoutEvent(presented: nat, now: int)
    | ResetEvent(claims: Option<Claims>, newHash: nat, now: int)

  predicate FreshSecret(tokens: seq<Token>, secret: nat) { forall i | 0 <= i < |tokens| :: tokens[i].secret != secret }

  predicate FreshFamily(tokens: seq<Token>, family: nat) { forall i | 0 <= i < |tokens| :: tokens[i].family != family }

  /** What is generated is new. */
  predicate Enabled(st: State, e: Event) {
    match e
    case Register(user, hash) => user !in st.users && hash !in st.hashes
    case SetActive(user, _) => user in st.users
    case Rehash(user, newHash) => user in st.users && newHash !in st.hashes
    case Login(user, family, secret, _, _) =>
      user in st.users && FreshSecret(st.tokens, secret) && FreshFamily(st.tokens, family)
    case Rotation(_, minted, _, _, _) => FreshSecret(st.tokens, minted)
    case LogoutEvent(_, _) => true
    case ResetEvent(_, newHash, _) => newHash !in st.hashes
  }

  function Apply(st: State, e: Event): State
    requires Enabled(st, e)
  {
    match e
    case Register(user, hash) => State(st.tokens, st.users[user := User(true, hash)], st.hashes + {hash})
    case SetActive(user, active) => st.(users := st.users[user := st.users[user].(active := active)])
    case Rehash(user, newHash) =>
      State(st.tokens, st.users[user := st.users[user].(passwordHash := newHash)], st.hashes + {newHash})
    case Login(user, family, secret, now, ttl) => st.(tokens := st.tokens + [Issue(user, family, secret, now + ttl)])
    case Rotation(presented, minted, now, ttl, kept) =>
      var (after, outcome) := Rotate(st, presented, minted, now, ttl);
      if outcome.Ok? || kept then after else st
    case LogoutEvent(presented, now) => Logout(st, presented, now)
    case ResetEvent(claims, newHash, now) => Reset(st, claims, newHash, now).0
  }

  function Run(events: Log<Event>): State {
    match events
    case Empty => START
    case More(before, e) =>
      var st := Run(before);
      if Enabled(st, e) then Apply(st, e) else st
  }

  // ---- Families are chains ---------------------------------------------------------------------

  /** A rotated token is revoked and points to a later token of its family. */
  ghost predicate PointsAhead(tokens: seq<Token>) {
    forall i | 0 <= i < |tokens| && tokens[i].rotatedTo.Some? ::
      && i < tokens[i].rotatedTo.value < |tokens|
      && tokens[tokens[i].rotatedTo.value].family == tokens[i].family
      && tokens[i].revokedAt.Some?
  }

  /** Of two tokens of one family the earlier is rotated, to a token no later than the other; and
      one user owns both. */
  ghost predicate Chained(tokens: seq<Token>) {
    forall i, j | 0 <= i < j < |tokens| && tokens[i].family == tokens[j].family ::
      && tokens[i].user == tokens[j].user
      && tokens[i].rotatedTo.Some? && tokens[i].rotatedTo.value <= j
  }

  ghost predicate SecretsDistinct(tokens: seq<Token>) {
    forall i, j | 0 <= i < j < |tokens| :: tokens[i].secret != tokens[j].secret
  }

  ghost predicate Inv(tokens: seq<Token>) {
    PointsAhead(tokens) && Chained(tokens) && SecretsDistinct(tokens)
  }

  /** Only revocations happened. */
  ghost predicate OnlyRevoked(tokens: seq<Token>, after: seq<Token>) {
    |after| == |tokens| && forall i | 0 <= i < |tokens| ::
      after[i].(revokedAt := tokens[i].revokedAt) == tokens[i] && (tokens[i].revokedAt.Some? ==> after[i] == tokens[i])
  }

  lemma RevokingKeepsInv(tokens: seq<Token>, after: seq<Token>)
    requires Inv(tokens) && OnlyRevoked(tokens, after)
    ensures Inv(after)
  {
    forall i | 0 <= i < |tokens|
      ensures after[i].family == tokens[i].family && after[i].user == tokens[i].user
      ensures after[i].secret == tokens[i].secret && after[i].rotatedTo == tokens[i].rotatedTo
    {
      assert after[i].(revokedAt := tokens[i].revokedAt) == tokens[i];
    }
  }

  lemma LoginKeepsInv(tokens: seq<Token>, t: Token)
    requires Inv(tokens) && FreshFamily(tokens, t.family) && FreshSecret(tokens, t.secret)
    requires t.rotatedTo.None?
    ensures Inv(tokens + [t])
  {
  }

  /** The token that rotates is the last of its family. */
  lemma LiveIsLast(tokens: seq<Token>, i: TokenId, j: TokenId)
    requires Inv(tokens) && i < |tokens| && j < |tokens| && tokens[i].family == tokens[j].family
    requires tokens[i].revokedAt.None?
    ensures j <= i && tokens[i].rotatedTo.None?
    ensures tokens[j].revokedAt.None? ==> i == j
  {
  }

  lemma RotationKeepsInv(tokens: seq<Token>, id: TokenId, minted: nat, now: int, expiresAt: int)
    requires Inv(tokens) && id < |tokens| && tokens[id].revokedAt.None? && FreshSecret(tokens, minted)
    ensures Inv(tokens[id := tokens[id].(revokedAt := Some(now), rotatedTo := Some(|tokens|))]
                + [Issue(tokens[id].user, tokens[id].family, minted, expiresAt)])
  {
    forall j | 0 <= j < |tokens| && tokens[j].family == tokens[id].family
      ensures j <= id
    {
      LiveIsLast(tokens, id, j);
    }
  }

  lemma RevokeWhereOnlyRevokes(tokens: seq<Token>, selected: Token -> bool, now: int)
    ensures OnlyRevoked(tokens, RevokeWhere(tokens, selected, now))
  {
  }

  lemma RevokeOneOnlyRevokes(tokens: seq<Token>, id: TokenId, now: int)
    requires id < |tokens|
    ensures OnlyRevoked(tokens, tokens[id := RevokeRow(tokens[id], now)])
  {
  }

  /** What a rotation does to the table: the successful one appends, the others only revoke. */
  lemma RotationOutcomes(st: State, presented: nat, minted: nat, now: int, ttl: nat)
    ensures var (after, outcome) := Rotate(st, presented, minted, now, ttl);
            && after.users == st.users && after.hashes == st.hashes
            && (!outcome.Ok? ==> OnlyRevoked(st.tokens, after.tokens))
            && (outcome.Ok? ==>
                  var found := Find(st.tokens, presented);
                  found.Some? && st.tokens[found.value].revokedAt.None? &&
                  var t := st.tokens[found.value];
                  after.tokens == st.tokens[found.value := t.(revokedAt := Some(now), rotatedTo := Some(|st.tokens|))]
                                  + [Issue(t.user, t.family, minted, now + ttl)])
  {
    var found := Find(st.tokens, presented);
    if found.Some? {
      RevokeWhereOnlyRevokes(st.tokens, OfFamily(st.tokens[found.value].family), now);
      RevokeOneOnlyRevokes(st.tokens, found.value, now);
    }
  }

  lemma RotationStepKeepsInv(st: State, presented: nat, minted: nat, now: int, ttl: nat)
    requires Inv(st.tokens) && FreshSecret(st.tokens, minted)
    ensures Inv(Rotate(st, presented, minted, now, ttl).0.tokens)
  {
    var (after, outcome) := Rotate(st, presented, minted, now, ttl);
    RotationOutcomes(st, presented, minted, now, ttl);
    if outcome.Ok? {
      RotationKeepsInv(st.tokens, Find(st.tokens, presented).value, minted, now, now + ttl);
    } else {
      RevokingKeepsInv(st.tokens, after.tokens);
    }
  }

  lemma LogoutOnlyRevokes(st: State, presented: nat, now: int)
    ensures OnlyRevoked(st.tokens, Logout(st, presented, now).tokens)
  {
    var found := Find(st.tokens, presented);
    if found.Some? {
      RevokeOneOnlyRevokes(st.tokens, found.value, now);
    }
  }

  lemma ResetOnlyRevokes(st: State, claims: Option<Claims>, newHash: nat, now: int)
    ensures OnlyRevoked(st.tokens, Reset(st, claims, newHash, now).0.tokens)
  {
    if claims.Some? {
      RevokeWhereOnlyRevokes(st.tokens, OfUser(claims.value.user), now);
    }
  }

  lemma StepKeepsInv(st: State, e: Event)
    requires Inv(st.tokens) && Enabled(st, e)
    ensures Inv(Apply(st, e).tokens)
  {
    match e
    case Login(user, family, secret, now, ttl) =>
      LoginKeepsInv(st.tokens, Issue(user, family, secret, now + ttl));
    case Rotation(presented, minted, now, ttl, _) =>
      RotationStepKeepsInv(st, presented, minted, now, ttl);
    case LogoutEvent(presented, now) =>
      LogoutOnlyRevokes(st, presented, now);
      RevokingKeepsInv(st.tokens, Logout(st, presented, now).tokens);
    case ResetEvent(claims, newHash, now) =>
      ResetOnlyRevokes(st, claims, newHash, now);
      RevokingKeepsInv(st.tokens, Reset(st, claims, newHash, now).0.tokens);
    case _ =>
  }

  lemma {:induction false} RunInv(events: Log<Event>)
    ensures Inv(Run(events).tokens)
  {
    if events.More? {
      RunInv(events.before);
      if Enabled(Run(events.before), events.last) {
        StepKeepsInv(Run(events.before), events.last);
      }
    }
  }

  /** The tokens met by following `rotated_to` from token i. */
  ghost function Chain(tokens: seq<Token>, i: TokenId): seq<TokenId>
    requires PointsAhead(tokens) && i < |tokens|
    decreases |tokens| - i
  {
    [i] + if tokens[i].rotatedTo.Some? then Chain(tokens, tokens[i].rotatedTo.value) else []
  }

  /** The later tokens of the family of token i, from i on, oldest first, all owned by one user. */
  ghost predicate IsFamilyFrom(tokens: seq<Token>, chain: seq<TokenId>, i: TokenId)
    requires i < |tokens|
  {
    && (forall j | 0 <= j < |tokens| :: j in chain <==> i <= j && tokens[j].family == tokens[i].family)
    && (forall a, b | 0 <= a < b < |chain| :: chain[a] < chain[b])
    && (forall j | j in chain :: j < |tokens| && tokens[j].user == tokens[i].user)
  }

  lemma OneLinkMore(tokens: seq<Token>, rest: seq<TokenId>, i: TokenId, next: TokenId)
    requires Inv(tokens) && i < |tokens| && tokens[i].rotatedTo == Some(next)
    requires next < |tokens| && IsFamilyFrom(tokens, rest, next)
    ensures IsFamilyFrom(tokens, [i] + rest, i)
  {
    forall a | 0 <= a < |rest|
      ensures i < rest[a]
    {
      assert rest[a] in rest;
    }
    forall j | 0 <= j < |tokens|
      ensures j in [i] + rest <==> i <= j && tokens[j].family == tokens[i].family
    {
      assert j in [i] + rest <==> j == i || j in rest;
    }
  }

  /** Following `rotated_to` from a token meets exactly the later tokens of its family. */
  lemma {:induction false} ChainIsFamily(tokens: seq<Token>, i: TokenId)
    requires Inv(tokens) && i < |tokens|
    ensures IsFamilyFrom(tokens, Chain(tokens, i), i)
    decreases |tokens| - i
  {
    if tokens[i].rotatedTo.Some? {
      var next := tokens[i].rotatedTo.value;
      ChainIsFamily(tokens, next);
      OneLinkMore(tokens, Chain(tokens, next), i, next);
    }
  }

  /** The chain is the whole family, oldest token first; one user owns it; and at most its last token is
      unrevoked. */
  ghost predicate IsLinearFamily(tokens: seq<Token>, chain: seq<TokenId>, family: nat, user: UserId) {
    && chain != []
    && (forall j | 0 <= j < |tokens| :: j in chain <==> tokens[j].family == family)
    && (forall a, b | 0 <= a < b < |chain| :: chain[a] < chain[b])
    && (forall j | j in chain :: j < |tokens| && tokens[j].user == user)
    && (forall j | j in chain && j < |tokens| && tokens[j].revokedAt.None? :: j == chain[|chain| - 1])
  }

  lemma LinearFromFirst(tokens: seq<Token>, chain: seq<TokenId>, first: TokenId)
    requires Inv(tokens) && first < |tokens| && chain != [] && IsFamilyFrom(tokens, chain, first)
    requires forall j | 0 <= j < first :: tokens[j].family != tokens[first].family
    ensures IsLinearFamily(tokens, chain, tokens[first].family, tokens[first].user)
  {
    var last := chain[|chain| - 1];
    assert last in chain;
    forall j | j in chain && tokens[j].revokedAt.None?
      ensures j == last
    {
      LiveIsLast(tokens, j, last);
      var a :| 0 <= a < |chain| && chain[a] == j;
    }
  }

  /** In every run each family is one linear chain owned by one user, with at most one unrevoked
      token, which is the last of the chain. */
  lemma FamiliesAreChains(events: Log<Event>, first: TokenId)
    requires first < |Run(events).tokens|
    requires forall j | 0 <= j < first :: Run(events).tokens[j].family != Run(events).tokens[first].family
    ensures var tokens := Run(events).tokens;
            PointsAhead(tokens)
            && IsLinearFamily(tokens, Chain(tokens, first), tokens[first].family, tokens[first].user)
  {
    RunInv(events);
    ChainIsFamily(Run(events).tokens, first);
    LinearFromFirst(Run(events).tokens, Chain(Run(events).tokens, first), first);
  }

  // ---- What stays revoked ----------------------------------------------------------------------

  /** Rows are never removed, never change owner, family, secret or expiry, and never become live again. */
  ghost predicate Grows(tokens: seq<Token>, later: seq<Token>) {
    |tokens| <= |later| && forall i | 0 <= i < |tokens| ::
      && later[i].user == tokens[i].user && later[i].family == tokens[i].family && later[i].secret == tokens[i].secret
      && later[i].expiresAt == tokens[i].expiresAt
      && (tokens[i].revokedAt.Some? ==> later[i].revokedAt == tokens[i].revokedAt)
  }

  lemma OnlyRevokedGrows(tokens: seq<Token>, after: seq<Token>)
    requires OnlyRevoked(tokens, after)
    ensures Grows(tokens, after)
  {
    forall i | 0 <= i < |tokens|
      ensures after[i].user == tokens[i].user && after[i].family == tokens[i].family
      ensures after[i].secret == tokens[i].secret && after[i].expiresAt == tokens[i].expiresAt
    {
      assert after[i].(revokedAt := tokens[i].revokedAt) == tokens[i];
    }
  }

  /** A token was issued in the family, and none of it is live. */
  ghost predicate Dead(tokens: seq<Token>, family: nat) {
    && !FreshFamily(tokens, family)
    && forall i | 0 <= i < |tokens| && tokens[i].family == family :: tokens[i].revokedAt.Some?
  }

  lemma StepGrows(st: State, e: Event)
    requires Enabled(st, e)
    ensures Grows(st.tokens, Apply(st, e).tokens)
  {
    match e
    case Rotation(presented, minted, now, ttl, _) =>
      var (after, outcome) := Rotate(st, presented, minted, now, ttl);
      if !outcome.Ok? {
        RotationOutcomes(st, presented, minted, now, ttl);
        OnlyRevokedGrows(st.tokens, after.tokens);
      }
    case LogoutEvent(presented, now) =>
      LogoutOnlyRevokes(st, presented, now);
      OnlyRevokedGrows(st.tokens, Logout(st, presented, now).tokens);
    case ResetEvent(claims, newHash, now) =>
      ResetOnlyRevokes(st, claims, newHash, now);
      OnlyRevokedGrows(st.tokens, Reset(st, claims, newHash, now).0.tokens);
    case _ =>
  }

  lemma StepKeepsDead(st: State, e: Event, family: nat)
    requires Enabled(st, e) && Dead(st.tokens, family)
    ensures Dead(Apply(st, e).tokens, family)
  {
    StepGrows(st, e);
    var after := Apply(st, e).tokens;
    var i :| 0 <= i < |st.tokens| && st.tokens[i].family == family;
    assert after[i].family == family;
    forall j | 0 <= j < |after| && after[j].family == family
      ensures after[j].revokedAt.Some?
    {
      if j < |st.tokens| {
        assert st.tokens[j].family == family;
      } else {
        NewRowsAreElsewhere(st, e, family, j);
      }
    }
  }

  /** New rows go to a new family, or to the family of a live token. */
  lemma NewRowsAreElsewhere(st: State, e: Event, family: nat, j: TokenId)
    requires Enabled(st, e) && Dead(st.tokens, family)
    requires |st.tokens| <= j < |Apply(st, e).tokens|
    ensures Apply(st, e).tokens[j].family != family
  {
    if e.Rotation? {
      RotationOutcomes(st, e.presented, e.minted, e.now, e.ttl);
    } else if e.ResetEvent? {
      ResetOnlyRevokes(st, e.claims, e.newHash, e.now);
    } else if e.LogoutEvent? {
      LogoutOnlyRevokes(st, e.presented, e.now);
    }
  }

  lemma {:induction false} RunGrows(events: Log<Event>, later: Log<Event>)
    requires Extends(later, events)
    ensures Grows(Run(events).tokens, Run(later).tokens)
  {
    if later != events {
      RunGrows(events, later.before);
      if Enabled(Run(later.before), later.last) {
        StepGrows(Run(later.before), later.last);
      }
    }
  }

  /** A family without a live token never regains one, and every later rotation of one of its tokens
      fails. */
  lemma {:induction false} DeadStaysDead(events: Log<Event>, later: Log<Event>, family: nat)
    requires Extends(later, events) && Dead(Run(events).tokens, family)
    ensures Dead(Run(later).tokens, family)
    ensures forall i, minted, now, ttl | 0 <= i < |Run(later).tokens| && Run(later).tokens[i].family == family ::
              !Rotate(Run(later), Run(later).tokens[i].secret, minted, now, ttl).1.Ok?
  {
    if later != events {
      DeadStaysDead(events, later.before, family);
      if Enabled(Run(later.before), later.last) {
        StepKeepsDead(Run(later.before), later.last, family);
      }
    }
    var st := Run(later);
    RunInv(later);
    forall i, minted, now, ttl | 0 <= i < |st.tokens| && st.tokens[i].family == family
      ensures !Rotate(st, st.tokens[i].secret, minted, now, ttl).1.Ok?
    {
      FoundIs(st.tokens, i);
    }
  }

  lemma FoundIs(tokens: seq<Token>, i: TokenId)
    requires SecretsDistinct(tokens) && i < |tokens|
    ensures Find(tokens, tokens[i].secret) == Some(i)
  {
    var found := Find(tokens, tokens[i].secret);
    assert found.Some?;
  }

  /** No raw token is ever successfully rotated twice. */
  lemma NeverRotatedTwice(events: Log<Event>, later: Log<Event>, presented: nat, minted: nat, now: int, ttl: nat,
                          minted': nat, now': int, ttl': nat)
    requires FreshSecret(Run(events).tokens, minted)
    requires Rotate(Run(events), presented, minted, now, ttl).1.Ok?
    requires Extends(later, More(events, Rotation(presented, minted, now, ttl, true)))
    ensures Rotate(Run(later), presented, minted', now', ttl').1 == Revoked
  {
    var rotated := More(events, Rotation(presented, minted, now, ttl, true));
    var id := Find(Run(events).tokens, presented).value;
    assert Run(rotated).tokens[id].revokedAt == Some(now);
    RunGrows(rotated, later);
    RunInv(later);
    FoundIs(Run(later).tokens, id);
  }

  // ---- When a rotation succeeds ----------------------------------------------------------------

  /** The token is live, has not expired, and belongs to an active user. */
  ghost predicate Rotatable(st: State, t: Token, now: int) {
    && t.revokedAt.None? && now < t.expiresAt
    && t.user in st.users && st.users[t.user].active
  }

  /** In every run: of the tokens issued, the presented one rotates if and only if it is live, has not
      expired, and belongs to an active user. */
  lemma RotatesIff(events: Log<Event>, i: TokenId, minted: nat, now: int, ttl: nat)
    requires i < |Run(events).tokens|
    ensures var st := Run(events);
            Rotate(st, st.tokens[i].secret, minted, now, ttl).1.Ok? <==> Rotatable(st, st.tokens[i], now)
  {
    RunInv(events);
    FoundIs(Run(events).tokens, i);
  }

  /** What was never issued is invalid, and presenting it changes nothing. */
  lemma UnknownIsInvalid(events: Log<Event>, presented: nat, minted: nat, now: int, ttl: nat)
    requires FreshSecret(Run(events).tokens, presented)
    ensures Rotate(Run(events), presented, minted, now, ttl) == (Run(events), Invalid)
    ensures Logout(Run(events), presented, now) == Run(events)
  {
    var found := Find(Run(events).tokens, presented);
    assert found.None?;
  }

  /** A rotation revokes the token presented, at its instant, and issues one more of the same user and
      family, which is live, lasts `ttl` from then, and is the one the old token leads to. Nothing else
      changes. */
  lemma RotationReplaces(events: Log<Event>, i: TokenId, minted: nat, now: int, ttl: nat)
    requires i < |Run(events).tokens| && Rotatable(Run(events), Run(events).tokens[i], now)
    ensures var st := Run(events);
            var (after, n) := (Rotate(st, st.tokens[i].secret, minted, now, ttl).0, |st.tokens|);
            && after.users == st.users && after.hashes == st.hashes && |after.tokens| == n + 1
            && after.tokens[i] == st.tokens[i].(revokedAt := Some(now), rotatedTo := Some(n))
            && after.tokens[n] == Token(st.tokens[i].user, st.tokens[i].family, minted, now + ttl, None, None)
            && forall j | 0 <= j < n && j != i :: after.tokens[j] == st.tokens[j]
  {
    RunInv(events);
    FoundIs(Run(events).tokens, i);
  }

  /** Of a run whose event e issues a token: it is the one that e minted, and it rotates at no instant from
      `ttl` after its issue on, whatever happens in between; presenting it then leaves its family dead. */
  lemma LifetimeIsTtl(events: Log<Event>, e: Event, later: Log<Event>, minted: nat, now: int, ttl: nat)
    requires Enabled(Run(events), e) && |Run(events).tokens| < |Run(More(events, e)).tokens|
    requires Extends(later, More(events, e))
    ensures var i, st := |Run(events).tokens|, Run(later);
            && (e.Login? || e.Rotation?) && i < |st.tokens|
            && st.tokens[i].secret == (if e.Login? then e.secret else e.minted)
            && (e.now + e.ttl <= now ==>
                  var (after, outcome) := Rotate(st, st.tokens[i].secret, minted, now, ttl);
                  !outcome.Ok? && Dead(after.tokens, st.tokens[i].family))
  {
    IssuedHow(Run(events), e);
    RunGrows(More(events, e), later);
    var i := |Run(events).tokens|;
    RotatesIff(later, i, minted, now, ttl);
    if e.now + e.ttl <= now {
      ReplayExpiryLogoutKill(later, i, minted, now, ttl);
    }
  }

  lemma IssuedHow(st: State, e: Event)
    requires Enabled(st, e) && |st.tokens| < |Apply(st, e).tokens|
    ensures e.Login? || e.Rotation?
    ensures var t := Apply(st, e).tokens[|st.tokens|];
            t.secret == (if e.Login? then e.secret else e.minted) && t.expiresAt == e.now + e.ttl
  {
    match e
    case Rotation(presented, minted, now, ttl, _) => RotationOutcomes(st, presented, minted, now, ttl);
    case LogoutEvent(presented, now) => LogoutOnlyRevokes(st, presented, now);
    case ResetEvent(claims, newHash, now) => ResetOnlyRevokes(st, claims, newHash, now);
    case _ =>
  }

  /** A login starts a family with one token, which rotates for `ttl` as long as the user is active: at once
      for one who has just registered, and not while the account is disabled. */
  lemma LoginStartsFamily(events: Log<Event>, e: Event, user: UserId, hash: nat, active: bool)
    requires e.Login? && e.user == user
    requires Enabled(Run(events), Register(user, hash))
    requires FreshSecret(Run(events).tokens, e.secret) && FreshFamily(Run(events).tokens, e.family)
    ensures var registered := More(events, Register(user, hash));
            var n, st := |Run(events).tokens|, Run(More(registered, e));
            && st.tokens == Run(events).tokens + [Token(user, e.family, e.secret, e.now + e.ttl, None, None)]
            && (forall now :: Rotatable(st, st.tokens[n], now) <==> now < e.now + e.ttl)
            && var after := Run(More(More(registered, e), SetActive(user, active)));
               after.tokens == st.tokens
               && forall now :: Rotatable(after, after.tokens[n], now) <==> active && now < e.now + e.ttl
  {
  }

  /** What a step revokes, it revokes at its own instant. */
  lemma RevokedWhen(st: State, e: Event, i: TokenId)
    requires Enabled(st, e) && i < |st.tokens| && i < |Apply(st, e).tokens|
    requires st.tokens[i].revokedAt.None? && Apply(st, e).tokens[i].revokedAt.Some?
    ensures (e.Rotation? || e.LogoutEvent? || e.ResetEvent?) && Apply(st, e).tokens[i].revokedAt == Some(e.now)
  {
  }

  /** Logging out touches no token but the one presented, and revokes it if it is live. */
  lemma LogoutIsOwn(events: Log<Event>, i: TokenId, now: int)
    requires i < |Run(events).tokens|
    ensures var st := Run(events);
            var after := Run(More(events, LogoutEvent(st.tokens[i].secret, now)));
            && after == Logout(st, st.tokens[i].secret, now)
            && after.users == st.users && after.hashes == st.hashes && |after.tokens| == |st.tokens|
            && after.tokens[i].revokedAt == (if st.tokens[i].revokedAt.Some? then st.tokens[i].revokedAt else Some(now))
            && forall j | 0 <= j < |st.tokens| && j != i :: after.tokens[j] == st.tokens[j]
  {
    RunInv(events);
    FoundIs(Run(events).tokens, i);
  }

  // ---- What kills a family ---------------------------------------------------------------------

  /** Presenting a token that is revoked or has expired, and logging out with any token that is live, leave
      its whole family without a live token; presenting it does so as far as the session goes. No token of
      another family is touched; and a live one whose user is not active changes nothing. */
  lemma ReplayExpiryLogoutKill(events: Log<Event>, i: TokenId, minted: nat, now: int, ttl: nat)
    requires i < |Run(events).tokens|
    ensures var st := Run(events);
            var t := st.tokens[i];
            var after := Rotate(st, t.secret, minted, now, ttl).0;
            && (t.revokedAt.Some? || t.expiresAt <= now ==> Dead(after.tokens, t.family))
            && (t.revokedAt.None? && now < t.expiresAt && !Rotatable(st, t, now) ==> after == st)
            && (t.revokedAt.None? ==> Dead(Logout(st, t.secret, now).tokens, t.family))
            && |st.tokens| <= |after.tokens|
            && forall j | 0 <= j < |st.tokens| && st.tokens[j].family != t.family :: after.tokens[j] == st.tokens[j]
  {
    RunInv(events);
    var tokens := Run(events).tokens;
    FoundIs(tokens, i);
    if tokens[i].revokedAt.None? {
      RevokedLiveIsDead(tokens, i, now);
    } else {
      var after := RevokeWhere(tokens, OfFamily(tokens[i].family), now);
      assert after[i].family == tokens[i].family;
    }
  }

  /** On the request path a replay is answered with an error, and its session rolled back: the family is
      dead afterwards if and only if the revocation was kept or the family was dead before. If it was
      not kept nothing has changed, and the family's live token still rotates. */
  lemma ReplayKillsIffKept(events: Log<Event>, i: TokenId, minted: nat, now: int, ttl: nat, kept: bool)
    requires i < |Run(events).tokens| && FreshSecret(Run(events).tokens, minted)
    requires Run(events).tokens[i].revokedAt.Some?
    ensures var st := Run(events);
            var t := st.tokens[i];
            var after := Run(More(events, Rotation(t.secret, minted, now, ttl, kept)));
            && (Dead(after.tokens, t.family) <==> kept || Dead(st.tokens, t.family))
            && (!kept ==> after == st)
  {
    RunInv(events);
    FoundIs(Run(events).tokens, i);
    ReplayExpiryLogoutKill(events, i, minted, now, ttl);
  }

  lemma RevokedLiveIsDead(tokens: seq<Token>, id: TokenId, now: int)
    requires Inv(tokens) && id < |tokens| && tokens[id].revokedAt.None?
    ensures Dead(tokens[id := RevokeRow(tokens[id], now)], tokens[id].family)
  {
    var after := tokens[id := RevokeRow(tokens[id], now)];
    assert after[id].family == tokens[id].family;
    forall j | 0 <= j < |after| && after[j].family == tokens[id].family
      ensures after[j].revokedAt.Some?
    {
      if tokens[j].revokedAt.None? {
        LiveIsLast(tokens, id, j);
      }
    }
  }

  /** A successful password reset leaves its user no live token, so all the user's families dead, and
      touches no token of any other user; and its token is used up for good. */
  lemma ResetKillsAllOfUser(events: Log<Event>, claims: Claims, newHash: nat, now: int)
    requires Reset(Run(events), Some(claims), newHash, now).1.Ok?
    ensures var tokens, after := Run(events).tokens, Reset(Run(events), Some(claims), newHash, now).0.tokens;
            && |after| == |tokens|
            && (forall i | 0 <= i < |tokens| && tokens[i].user == claims.user :: after[i].revokedAt.Some?)
            && (forall i | 0 <= i < |tokens| && tokens[i].user != claims.user :: after[i] == tokens[i])
            && (forall i | 0 <= i < |tokens| && tokens[i].user == claims.user :: Dead(after, tokens[i].family))
  {
    RunInv(events);
    var tokens := Run(events).tokens;
    var after := Reset(Run(events), Some(claims), newHash, now).0.tokens;
    forall i | 0 <= i < |tokens| && tokens[i].user == claims.user
      ensures Dead(after, tokens[i].family)
    {
      assert after[i].family == tokens[i].family;
      forall j | 0 <= j < |after| && after[j].family == tokens[i].family
        ensures after[j].revokedAt.Some?
      {
        SameOwner(tokens, i, j);
      }
    }
  }

  lemma SameOwner(tokens: seq<Token>, i: TokenId, j: TokenId)
    requires Inv(tokens) && i < |tokens| && j < |tokens| && tokens[i].family == tokens[j].family
    ensures tokens[i].user == tokens[j].user
  {
  }

  /** Password hashes in use were made in the run. */
  ghost predicate HashesKnown(st: State) {
    forall u | u in st.users :: st.users[u].passwordHash in st.hashes
  }

  /** A hash no account uses any more is never used again. */
  lemma {:induction false} HashStaysUnused(events: Log<Event>, later: Log<Event>, user: UserId, hash: nat)
    requires Extends(later, events)
    requires user in Run(events).users && hash in Run(events).hashes && Run(events).users[user].passwordHash != hash
    ensures user in Run(later).users && hash in Run(later).hashes && Run(later).users[user].passwordHash != hash
  {
    if later != events {
      HashStaysUnused(events, later.before, user, hash);
      var e := later.last;
      if e.Rotation? {
        RotationOutcomes(Run(later.before), e.presented, e.minted, e.now, e.ttl);
      }
    }
  }

  lemma {:induction false} RunHashesKnown(events: Log<Event>)
    ensures HashesKnown(Run(events))
  {
    if events.More? {
      RunHashesKnown(events.before);
      var e := events.last;
      if e.Rotation? {
        RotationOutcomes(Run(events.before), e.presented, e.minted, e.now, e.ttl);
      }
    }
  }

  /** A reset token made for a user works, in every later state, if and only if the user's password hash is
      still the one it was made with; it then sets the new hash and touches no other user. */
  lemma ResetWorksIffHashIsOld(events: Log<Event>, later: Log<Event>, user: UserId, newHash: nat, now: int)
    requires user in Run(events).users && Extends(later, events)
    ensures var claims := Some(Claims(user, Run(events).users[user].passwordHash));
            var st := Run(later);
            var (after, outcome) := Reset(st, claims, newHash, now);
            && user in st.users
            && (outcome.Ok? <==> st.users[user].passwordHash == Run(events).users[user].passwordHash)
            && (outcome.Ok? ==>
                  && after.users.Keys == st.users.Keys
                  && after.users[user] == User(st.users[user].active, newHash)
                  && forall u | u in st.users && u != user :: after.users[u] == st.users[u])
            && (!outcome.Ok? ==> after == st)
  {
    UsersStay(events, later, user);
  }

  /** A new password hash, made when a login upgrades it, voids the reset tokens made before. */
  lemma RehashVoidsResets(events: Log<Event>, user: UserId, newHash: nat, newHash': nat, now: int)
    requires Enabled(Run(events), Rehash(user, newHash))
    ensures var claims := Some(Claims(user, Run(events).users[user].passwordHash));
            var st := Run(More(events, Rehash(user, newHash)));
            && st == Run(events).(users := st.users, hashes := st.hashes)
            && Reset(st, claims, newHash', now) == (st, Invalid)
  {
    RunHashesKnown(events);
  }

  lemma {:induction false} UsersStay(events: Log<Event>, later: Log<Event>, user: UserId)
    requires user in Run(events).users && Extends(later, events)
    ensures user in Run(later).users
  {
    if later != events {
      UsersStay(events, later.before, user);
      var e := later.last;
      if e.Rotation? {
        RotationOutcomes(Run(later.before), e.presented, e.minted, e.now, e.ttl);
      }
    }
  }

  /** A reset token works once: bound to the hash it replaced, it fails in every later state. */
  lemma ResetTokenIsSingleUse(events: Log<Event>, later: Log<Event>, claims: Claims, newHash: nat, now: int,
                              newHash': nat, now': int)
    requires newHash !in Run(events).hashes && Reset(Run(events), Some(claims), newHash, now).1.Ok?
    requires Extends(later, More(events, ResetEvent(Some(claims), newHash, now)))
    ensures Reset(Run(later), Some(claims), newHash', now').1 == Invalid
    ensures Reset(Run(later), Some(claims), newHash', now').0 == Run(later)
  {
    RunHashesKnown(events);
    HashStaysUnused(More(events, ResetEvent(Some(claims), newHash, now)), later, claims.user, claims.fingerprint);
  }
}
