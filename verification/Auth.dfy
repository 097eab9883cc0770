/** Refresh-token rotation: registration, login, refresh and logout over the users and jwt tables. */
module Auth {
  import opened Common

  datatype User = User(id: Uuid, email: string, username: string, displayName: string)
  datatype Jwt = Jwt(userId: Uuid, token: string, createdAt: Time, expiresAt: Time, revoked: bool)

  /** Both tables, rows in order of insertion. */
  datatype State = State(users: seq<User>, jwts: seq<Jwt>)

  const EMPTY := State([], [])

  /** Seven days, in nanoseconds. */
  const REFRESH_LIFETIME: Time := 7 * 24 * 60 * 60 * 1_000_000_000

  /** A signed refresh token and the two clock readings of generateTokens. */
  datatype Minted = Minted(token: string, created: Time, base: Time)

  datatype Reply = Tokens(refreshToken: string) | Conflict | Unauthorized | InternalError | Done

  datatype Event =
    | Register(user: User, minted: Minted)
    | Login(email: string, passwordOk: bool, minted: Minted)
    | Logout(userId: Uuid)
    | Refresh(token: string, now: Time, minted: Minted)

  // ---------- Lookups and row updates ----------

  function FindEmail(users: seq<User>, email: string): (k: nat)
    ensures k <= |users|
    ensures k < |users| ==> users[k].email == email
    ensures forall j :: 0 <= j < k ==> users[j].email != email
  {
    FirstWhere(users, (u: User) => u.email == email)
  }

  function FindUsername(users: seq<User>, username: string): (k: nat)
    ensures k <= |users|
    ensures k < |users| ==> users[k].username == username
    ensures forall j :: 0 <= j < k ==> users[j].username != username
  {
    FirstWhere(users, (u: User) => u.username == username)
  }

  function FindUser(users: seq<User>, id: Uuid): (k: nat)
    ensures k <= |users|
    ensures k < |users| ==> users[k].id == id
    ensures forall j :: 0 <= j < k ==> users[j].id != id
  {
    FirstWhere(users, (u: User) => u.id == id)
  }

  /** findOne where token = t and not revoked. */
  function FindUsable(jwts: seq<Jwt>, token: string): (k: nat)
    ensures k <= |jwts|
    ensures k < |jwts| ==> jwts[k].token == token && !jwts[k].revoked
    ensures forall j :: 0 <= j < k ==> jwts[j].token != token || jwts[j].revoked
  {
    FirstWhere(jwts, (row: Jwt) => row.token == token && !row.revoked)
  }

  function Revoke(jwts: seq<Jwt>, k: nat): seq<Jwt>
    requires k < |jwts|
  {
    jwts[k := jwts[k].(revoked := true)]
  }

  function RevokeAll(jwts: seq<Jwt>, userId: Uuid): (r: seq<Jwt>)
    ensures |r| == |jwts|
    ensures forall i {:trigger r[i]} {:trigger jwts[i]} :: 0 <= i < |jwts| ==>
      r[i] == if jwts[i].userId == userId then jwts[i].(revoked := true) else jwts[i]
  {
    seq(|jwts|, i requires 0 <= i < |jwts| =>
      if jwts[i].userId == userId then jwts[i].(revoked := true) else jwts[i])
  }

  // ---------- The operations ----------

  function Issue(s: State, userId: Uuid, minted: Minted): State {
    s.(jwts := s.jwts + [Jwt(userId, minted.token, minted.created, minted.base + REFRESH_LIFETIME, false)])
  }

  function RefreshStep(s: State, token: string, now: Time, minted: Minted): (State, Reply) {
    var k := FindUsable(s.jwts, token);
    if k == |s.jwts| then (s, Unauthorized)
    else
      var spent := s.(jwts := Revoke(s.jwts, k));
      if s.jwts[k].expiresAt < now then (spent, Unauthorized)
      else if FindUser(s.users, s.jwts[k].userId) == |s.users| then (spent, Unauthorized)
      else (Issue(spent, s.jwts[k].userId, minted), Tokens(minted.token))
  }

  function Step(s: State, e: Event): (State, Reply) {
    match e
    case Register(user, minted) =>
      if FindEmail(s.users, user.email) < |s.users| then (s, Conflict)
      else if FindUsername(s.users, user.username) < |s.users| then (s, InternalError)
      else (Issue(s.(users := s.users + [user]), user.id, minted), Tokens(minted.token))
    case Login(email, passwordOk, minted) =>
      var k := FindEmail(s.users, email);
      if k == |s.users| || !passwordOk then (s, Unauthorized)
      else (Issue(s, s.users[k].id, minted), Tokens(minted.token))
    case Logout(userId) => (s.(jwts := RevokeAll(s.jwts, userId)), Done)
    case Refresh(token, now, minted) => RefreshStep(s, token, now, minted)
  }

  function Run(s: State, es: seq<Event>): State
    decreases |es|
  {
    if es == [] then s else Step(Run(s, es[..|es| - 1]), es[|es| - 1]).0
  }

  // ---------- What each call does, row by row ----------

  predicate EmailKnown(users: seq<User>, email: string) {
    exists i :: 0 <= i < |users| && users[i].email == email
  }

  predicate UsernameKnown(users: seq<User>, username: string) {
    exists i :: 0 <= i < |users| && users[i].username == username
  }

  ghost predicate FirstWithEmail(users: seq<User>, email: string, k: int) {
    0 <= k < |users| && users[k].email == email && forall j :: 0 <= j < k ==> users[j].email != email
  }

  ghost predicate FirstUsable(jwts: seq<Jwt>, token: string, k: int) {
    && 0 <= k < |jwts| && jwts[k].token == token && !jwts[k].revoked
    && forall j :: 0 <= j < k ==> jwts[j].token != token || jwts[j].revoked
  }

  /** One row more, at the end: the minted token of that user, unrevoked, good for 604800 seconds. */
  ghost predicate OneMore(before: seq<Jwt>, after: seq<Jwt>, userId: Uuid, minted: Minted) {
    && |after| == |before| + 1 && after[..|before|] == before
    && var row := after[|before|];
    && row.userId == userId && row.token == minted.token && !row.revoked
    && row.createdAt == minted.created && row.expiresAt == minted.base + 604_800 * 1_000_000_000
  }

  ghost predicate SameButRevoked(before: Jwt, after: Jwt) {
    && after.userId == before.userId && after.token == before.token
    && after.createdAt == before.createdAt && after.expiresAt == before.expiresAt
  }

  /** Row k becomes revoked; nothing else about any row changes. */
  ghost predicate RevokedOnly(before: seq<Jwt>, after: seq<Jwt>, k: int) {
    && |after| == |before|
    && forall i {:trigger after[i]} {:trigger before[i]} :: 0 <= i < |before| ==>
         SameButRevoked(before[i], after[i]) && (after[i].revoked <==> before[i].revoked || i == k)
  }

  /** Registration is refused with a conflict exactly if the email is known, and fails in the insert
      exactly if only the username is; a refusal changes nothing. Otherwise exactly this user and one
      token are added. */
  lemma RegisterEffect(s: State, user: User, minted: Minted)
    ensures var (t, reply) := Step(s, Register(user, minted));
      && (reply == Conflict <==> EmailKnown(s.users, user.email))
      && (reply == InternalError <==> !EmailKnown(s.users, user.email) && UsernameKnown(s.users, user.username))
      && (reply == Tokens(minted.token) <==> !EmailKnown(s.users, user.email) && !UsernameKnown(s.users, user.username))
      && (reply != Tokens(minted.token) ==> t == s)
      && (reply == Tokens(minted.token) ==> t.users == s.users + [user] && OneMore(s.jwts, t.jwts, user.id, minted))
  {
  }

  /** A login succeeds exactly if the password is right and some stored user has the email; it then
      adds one token, for the first such user, and otherwise is unauthorized and changes nothing. */
  lemma LoginEffect(s: State, email: string, passwordOk: bool, minted: Minted)
    ensures var (t, reply) := Step(s, Login(email, passwordOk, minted));
      && (reply == Tokens(minted.token) <==> passwordOk && EmailKnown(s.users, email))
      && (reply != Tokens(minted.token) ==> reply == Unauthorized && t == s)
      && (reply == Tokens(minted.token) ==>
            t.users == s.users
            && exists k :: FirstWithEmail(s.users, email, k) && OneMore(s.jwts, t.jwts, s.users[k].id, minted))
  {
    var k := FindEmail(s.users, email);
    assert k < |s.users| ==> FirstWithEmail(s.users, email, k);
  }

  /** A logout revokes exactly the rows of its user. */
  lemma LogoutEffect(s: State, userId: Uuid)
    ensures var (t, reply) := Step(s, Logout(userId));
      && reply == Done && t.users == s.users
      && |t.jwts| == |s.jwts|
      && forall i {:trigger t.jwts[i]} {:trigger s.jwts[i]} :: 0 <= i < |s.jwts| ==>
           && SameButRevoked(s.jwts[i], t.jwts[i])
           && (t.jwts[i].revoked <==> s.jwts[i].revoked || s.jwts[i].userId == userId)
  {
  }

  /** A refresh revokes the first unrevoked row with the token and no other, also when it then turns
      out expired or without a user; it adds a row, for the same user, exactly on success. Without
      such a row it changes nothing. */
  lemma RefreshEffect(s: State, token: string, now: Time, minted: Minted)
    ensures var (t, reply) := Step(s, Refresh(token, now, minted));
      && t.users == s.users
      && (reply == Tokens(minted.token) || reply == Unauthorized)
      && ((forall k :: !FirstUsable(s.jwts, token, k)) ==> t == s && reply == Unauthorized)
      && (forall k :: FirstUsable(s.jwts, token, k) ==> SpentAt(s, t, k, reply, now, minted))
  {
    var found := FindUsable(s.jwts, token);
    if found < |s.jwts| {
      assert FirstUsable(s.jwts, token, found);
      assert Step(s, Refresh(token, now, minted)).0.jwts[..|s.jwts|] == Revoke(s.jwts, found);
    }
  }

  /** What a refresh does with the row k that it found. */
  ghost predicate SpentAt(s: State, t: State, k: int, reply: Reply, now: Time, minted: Minted)
    requires 0 <= k < |s.jwts|
  {
    && |s.jwts| <= |t.jwts| && RevokedOnly(s.jwts, t.jwts[..|s.jwts|], k)
    && (reply == Tokens(minted.token) <==>
          now <= s.jwts[k].expiresAt && exists j :: 0 <= j < |s.users| && s.users[j].id == s.jwts[k].userId)
    && (reply == Unauthorized ==> |t.jwts| == |s.jwts|)
    && (reply == Tokens(minted.token) ==> OneMore(t.jwts[..|s.jwts|], t.jwts, s.jwts[k].userId, minted))
  }

  ghost predicate Succeeds(s: State, e: Event) {
    Step(s, e).1.Tokens?
  }

  /** The token a step would hand out has never been handed out before: its jti is unique
      (section 4.1.7 of RFC 7519). */
  ghost predicate FreshStep(s: State, e: Event) {
    (e.Register? || e.Login? || e.Refresh?) ==> forall i :: 0 <= i < |s.jwts| ==> s.jwts[i].token != e.minted.token
  }

  ghost predicate FreshRun(s: State, es: seq<Event>)
    decreases |es|
  {
    es == [] || (FreshRun(s, es[..|es| - 1]) && FreshStep(Run(s, es[..|es| - 1]), es[|es| - 1]))
  }

  ghost predicate Distinct(s: State) {
    forall i, j :: 0 <= i < j < |s.jwts| ==> s.jwts[i].token != s.jwts[j].token
  }

  // ---------- What lasts ----------

  /** The rows of s are still there in t, in place and unchanged but for becoming revoked. */
  ghost predicate Extends(s: State, t: State) {
    && |s.jwts| <= |t.jwts|
    && forall i {:trigger s.jwts[i]} {:trigger t.jwts[i]} :: 0 <= i < |s.jwts| ==>
         t.jwts[i] == s.jwts[i] || t.jwts[i] == s.jwts[i].(revoked := true)
  }

  lemma StepExtends(s: State, e: Event)
    ensures Extends(s, Step(s, e).0)
  {
  }

  /** Along any run no row is lost or edited and no revoked token becomes usable again. */
  lemma {:induction false} RunExtends(s: State, es: seq<Event>)
    requires Distinct(s) && FreshRun(s, es)
    ensures Distinct(Run(s, es)) && Extends(s, Run(s, es))
    decreases |es|
  {
    if es != [] {
      RunExtends(s, es[..|es| - 1]);
      StepExtends(Run(s, es[..|es| - 1]), es[|es| - 1]);
      StepKeepsDistinct(Run(s, es[..|es| - 1]), es[|es| - 1]);
    }
  }

  lemma StepKeepsDistinct(s: State, e: Event)
    requires Distinct(s) && FreshStep(s, e)
    ensures Distinct(Step(s, e).0)
  {
    StepExtends(s, e);
  }

  // ---------- Every token has its user ----------

  /** jwt.user_id references users(id). */
  ghost predicate ForeignKey(s: State) {
    forall i :: 0 <= i < |s.jwts| ==> FindUser(s.users, s.jwts[i].userId) < |s.users|
  }

  lemma UserStays(users: seq<User>, user: User, id: Uuid)
    ensures FindUser(users + [user], id) < |users| + 1 <==> FindUser(users, id) < |users| || user.id == id
  {
    var k := FindUser(users, id);
    if k < |users| { assert (users + [user])[k].id == id; }
    assert (users + [user])[|users|] == user;
  }

  /** No service call deletes a user: every stored token keeps its user. */
  lemma {:induction false} RunKeepsForeignKey(s: State, es: seq<Event>)
    requires ForeignKey(s)
    ensures ForeignKey(Run(s, es))
    decreases |es|
  {
    if es != [] {
      RunKeepsForeignKey(s, es[..|es| - 1]);
      StepKeepsForeignKey(Run(s, es[..|es| - 1]), es[|es| - 1]);
    }
  }

  lemma StepKeepsForeignKey(s: State, e: Event)
    requires ForeignKey(s)
    ensures ForeignKey(Step(s, e).0)
  {
    match e
    case Register(user, minted) =>
      AddedUserKeepsForeignKey(s, user);
      IssueKeepsForeignKey(s.(users := s.users + [user]), user.id, minted);
    case _ =>
  }

  lemma AddedUserKeepsForeignKey(s: State, user: User)
    requires ForeignKey(s)
    ensures ForeignKey(s.(users := s.users + [user]))
    ensures FindUser(s.users + [user], user.id) < |s.users| + 1
  {
    forall id ensures FindUser(s.users + [user], id) < |s.users| + 1 <==> FindUser(s.users, id) < |s.users| || user.id == id {
      UserStays(s.users, user, id);
    }
  }

  lemma IssueKeepsForeignKey(s: State, userId: Uuid, minted: Minted)
    requires ForeignKey(s) && FindUser(s.users, userId) < |s.users|
    ensures ForeignKey(Issue(s, userId, minted))
  {
  }

  /** So over every run a refresh never finds its user gone: it succeeds exactly for an unrevoked token
      that has not expired. */
  lemma RefreshFindsUser(es: seq<Event>, token: string, now: Time, minted: Minted)
    ensures var s := Run(EMPTY, es);
      Succeeds(s, Refresh(token, now, minted)) <==>
        FindUsable(s.jwts, token) < |s.jwts| && now <= s.jwts[FindUsable(s.jwts, token)].expiresAt
  {
    RunKeepsForeignKey(EMPTY, es);
  }

  // ---------- Revocation is final ----------

  ghost predicate Spent(s: State, token: string) {
    exists i :: 0 <= i < |s.jwts| && s.jwts[i].token == token && s.jwts[i].revoked
  }

  lemma SpentIsRefused(s: State, token: string, now: Time, minted: Minted)
    requires Distinct(s) && Spent(s, token)
    ensures RefreshStep(s, token, now, minted) == (s, Unauthorized)
  {
    var i :| 0 <= i < |s.jwts| && s.jwts[i].token == token && s.jwts[i].revoked;
    var k := FindUsable(s.jwts, token);
    assert k < |s.jwts| ==> k == i;
  }

  lemma SpentStays(s: State, t: State, token: string)
    requires Spent(s, token) && Extends(s, t)
    ensures Spent(t, token)
  {
    var i :| 0 <= i < |s.jwts| && s.jwts[i].token == token && s.jwts[i].revoked;
    assert t.jwts[i].token == token && t.jwts[i].revoked;
  }

  lemma PresentedIsSpent(s: State, token: string, now: Time, minted: Minted)
    requires RefreshStep(s, token, now, minted) != (s, Unauthorized)
    ensures Spent(RefreshStep(s, token, now, minted).0, token)
  {
    var k := FindUsable(s.jwts, token);
    assert RefreshStep(s, token, now, minted).0.jwts[k].revoked;
  }

  /** A refresh token is good for one successful refresh: whatever happens in between, presenting it
      again is refused and changes nothing. */
  lemma RefreshedAtMostOnce(s: State, token: string, now1: Time, minted1: Minted, between: seq<Event>, now2: Time, minted2: Minted)
    requires Distinct(s) && Succeeds(s, Refresh(token, now1, minted1))
    requires FreshStep(s, Refresh(token, now1, minted1))
    requires FreshRun(Step(s, Refresh(token, now1, minted1)).0, between)
    ensures var t := Run(Step(s, Refresh(token, now1, minted1)).0, between);
      Step(t, Refresh(token, now2, minted2)) == (t, Unauthorized)
  {
    var s1 := Step(s, Refresh(token, now1, minted1)).0;
    PresentedIsSpent(s, token, now1, minted1);
    RunExtends(s1, between);
    SpentStays(s1, Run(s1, between), token);
    SpentIsRefused(Run(s1, between), token, now2, minted2);
  }

  /** A successful refresh presents an unrevoked stored token of an existing user that has not
      expired, and the user of the new token is the user of the old one. */
  lemma SuccessfulRefresh(s: State, token: string, now: Time, minted: Minted)
    ensures Succeeds(s, Refresh(token, now, minted)) <==>
      FindUsable(s.jwts, token) < |s.jwts|
      && now <= s.jwts[FindUsable(s.jwts, token)].expiresAt
      && FindUser(s.users, s.jwts[FindUsable(s.jwts, token)].userId) < |s.users|
    ensures var t := Step(s, Refresh(token, now, minted)).0;
      Succeeds(s, Refresh(token, now, minted)) ==>
        |t.jwts| == |s.jwts| + 1
        && t.jwts[|s.jwts|].userId == s.jwts[FindUsable(s.jwts, token)].userId
        && t.jwts[|s.jwts|].token == minted.token && !t.jwts[|s.jwts|].revoked
        && t.jwts[|s.jwts|].expiresAt == minted.base + REFRESH_LIFETIME
  {
  }

  /** After a logout, no token that its user held then is ever accepted again. */
  lemma LogoutEndsTokens(s: State, userId: Uuid, i: nat, between: seq<Event>, now: Time, minted: Minted)
    requires Distinct(s) && i < |s.jwts| && s.jwts[i].userId == userId
    requires FreshRun(Step(s, Logout(userId)).0, between)
    ensures var t := Run(Step(s, Logout(userId)).0, between);
      Step(t, Refresh(s.jwts[i].token, now, minted)) == (t, Unauthorized)
  {
    var s1 := Step(s, Logout(userId)).0;
    assert s1.jwts[i].revoked;
    assert Spent(s1, s.jwts[i].token);
    RunExtends(s1, between);
    SpentStays(s1, Run(s1, between), s.jwts[i].token);
    SpentIsRefused(Run(s1, between), s.jwts[i].token, now, minted);
  }

  /** An expired token is refused now and, since presenting it revokes it, ever after. */
  lemma ExpiredIsRefused(s: State, token: string, now: Time, minted: Minted)
    requires Distinct(s)
    requires forall i :: 0 <= i < |s.jwts| && s.jwts[i].token == token ==> s.jwts[i].expiresAt < now
    ensures Step(s, Refresh(token, now, minted)).1 == Unauthorized
    ensures FindUsable(s.jwts, token) < |s.jwts| ==> Spent(Step(s, Refresh(token, now, minted)).0, token)
  {
    var k := FindUsable(s.jwts, token);
    if k < |s.jwts| {
      assert Step(s, Refresh(token, now, minted)).0.jwts[k].revoked;
    }
  }

  // ---------- Token chains ----------

  /** For each row, the row of the login or registration it descends from through refreshes. */
  function NextRoots(s: State, roots: seq<nat>, e: Event): (r: seq<nat>)
    requires |roots| == |s.jwts|
    ensures |r| == |Step(s, e).0.jwts|
  {
    if !Step(s, e).1.Tokens? then roots
    else if e.Refresh? then roots + [roots[FindUsable(s.jwts, e.token)]]
    else roots + [|s.jwts|]
  }

  ghost function Roots(es: seq<Event>): (r: seq<nat>)
    ensures |r| == |Run(EMPTY, es).jwts|
    decreases |es|
  {
    if es == [] then []
    else NextRoots(Run(EMPTY, es[..|es| - 1]), Roots(es[..|es| - 1]), es[|es| - 1])
  }

  ghost predicate OneLivePerChain(s: State, roots: seq<nat>) {
    && |roots| == |s.jwts|
    && (forall i :: 0 <= i < |roots| ==> roots[i] <= i)
    && (forall i, j :: 0 <= i < j < |roots| && !s.jwts[i].revoked && !s.jwts[j].revoked ==> roots[i] != roots[j])
    && (forall i {:trigger s.jwts[i]} :: 0 <= i < |roots| ==> s.jwts[i].userId == s.jwts[roots[i]].userId)
  }

  lemma StepKeepsChains(s: State, roots: seq<nat>, e: Event)
    requires OneLivePerChain(s, roots)
    ensures OneLivePerChain(Step(s, e).0, NextRoots(s, roots, e))
  {
    match e
    case Register(user, minted) =>
      if Step(s, e).1.Tokens? {
        IssueKeepsChains(s.(users := s.users + [user]), roots, user.id, |s.jwts|, minted);
      }
    case Login(email, passwordOk, minted) =>
      if Step(s, e).1.Tokens? {
        IssueKeepsChains(s, roots, s.users[FindEmail(s.users, email)].id, |s.jwts|, minted);
      }
    case Refresh(token, now, minted) => RefreshKeepsChains(s, roots, token, now, minted);
    case _ => RevokingKeepsChains(s, Step(s, e).0, roots);
  }

  lemma RevokingKeepsChains(s: State, t: State, roots: seq<nat>)
    requires OneLivePerChain(s, roots) && Extends(s, t) && |t.jwts| == |s.jwts|
    ensures OneLivePerChain(t, roots)
  {
  }

  /** A new row may start a chain of its own, or go on a chain whose rows are all revoked. */
  lemma IssueKeepsChains(s: State, roots: seq<nat>, userId: Uuid, root: nat, minted: Minted)
    requires OneLivePerChain(s, roots) && root <= |s.jwts|
    requires root < |s.jwts| ==> s.jwts[root].userId == userId
    requires forall i :: 0 <= i < |s.jwts| && roots[i] == root ==> s.jwts[i].revoked
    ensures OneLivePerChain(Issue(s, userId, minted), roots + [root])
  {
  }

  lemma RefreshKeepsChains(s: State, roots: seq<nat>, token: string, now: Time, minted: Minted)
    requires OneLivePerChain(s, roots)
    ensures OneLivePerChain(RefreshStep(s, token, now, minted).0, NextRoots(s, roots, Refresh(token, now, minted)))
  {
    var k := FindUsable(s.jwts, token);
    if k < |s.jwts| {
      var spent := s.(jwts := Revoke(s.jwts, k));
      RevokingKeepsChains(s, spent, roots);
      if RefreshStep(s, token, now, minted).1.Tokens? {
        IssueKeepsChains(spent, roots, s.jwts[k].userId, roots[k], minted);
      }
    }
  }

  /** Over every run from empty tables: of the tokens that descend from one login or registration,
      at most one is unrevoked, and they all belong to one user. */
  lemma {:induction false} AtMostOneLiveDescendant(es: seq<Event>)
    ensures OneLivePerChain(Run(EMPTY, es), Roots(es))
    decreases |es|
  {
    if es != [] {
      AtMostOneLiveDescendant(es[..|es| - 1]);
      StepKeepsChains(Run(EMPTY, es[..|es| - 1]), Roots(es[..|es| - 1]), es[|es| - 1]);
    }
  }

  // ---------- The service as an object ----------

  class AuthService {
    var users: seq<User>
    var jwts: seq<Jwt>

    constructor ()
      ensures Tables() == EMPTY
    {
      users, jwts := [], [];
    }

    ghost function Tables(): State
      reads this
    {
      State(users, jwts)
    }

    method Register(user: User, minted: Minted) returns (reply: Reply)
      modifies this
      ensures (Tables(), reply) == Step(old(Tables()), Event.Register(user, minted))
    {
      var k := FindByEmail(user.email);
      if k < |users| {
        return Conflict;
      }
      var taken := UsernameTaken(user.username);
      if taken {
        return InternalError;
      }
      users := users + [user];
      reply := GenerateTokens(user.id, minted);
    }

    /** `passwordOk` is the verdict of the password comparison. */
    method Login(email: string, passwordOk: bool, minted: Minted) returns (reply: Reply)
      modifies this
      ensures (Tables(), reply) == Step(old(Tables()), Event.Login(email, passwordOk, minted))
    {
      var k := FindByEmail(email);
      if k == |users| {
        return Unauthorized;
      }
      if !passwordOk {
        return Unauthorized;
      }
      reply := GenerateTokens(users[k].id, minted);
    }

    method Logout(userId: Uuid)
      modifies this`jwts
      ensures Tables() == Step(old(Tables()), Event.Logout(userId)).0
    {
      var rows := jwts;
      for i := 0 to |jwts|
        modifies {}
        invariant |rows| == |jwts|
        invariant forall j :: 0 <= j < |rows| ==> rows[j] == if j < i then RevokeAll(jwts, userId)[j] else jwts[j]
      {
        if rows[i].userId == userId && !rows[i].revoked {
          rows := rows[i := rows[i].(revoked := true)];
        }
      }
      jwts := rows;
    }

    method Refresh(token: string, now: Time, minted: Minted) returns (reply: Reply)
      modifies this`jwts
      ensures (Tables(), reply) == Step(old(Tables()), Event.Refresh(token, now, minted))
    {
      var k := FindUsableToken(token);
      if k == |jwts| {
        return Unauthorized;
      }
      var stored := jwts[k];
      if stored.expiresAt < now {
        stored := stored.(revoked := true);
        jwts := jwts[k := stored];
        return Unauthorized;
      }
      stored := stored.(revoked := true);
      jwts := jwts[k := stored];
      var u := FindById(stored.userId);
      if u == |users| {
        return Unauthorized;
      }
      reply := GenerateTokens(users[u].id, minted);
    }

    method GenerateTokens(userId: Uuid, minted: Minted) returns (reply: Reply)
      modifies this`jwts
      ensures Tables() == Issue(old(Tables()), userId, minted) && reply == Tokens(minted.token)
    {
      jwts := jwts + [Jwt(userId, minted.token, minted.created, minted.base + REFRESH_LIFETIME, false)];
      reply := Tokens(minted.token);
    }

    method FindByEmail(email: string) returns (k: nat)
      ensures k == FindEmail(users, email)
    {
      k := 0;
      while k < |users| && users[k].email != email
        invariant k <= |users| && forall j :: 0 <= j < k ==> users[j].email != email
      {
        k := k + 1;
      }
    }

    /** The unique index that the insert of a user runs into. */
    method UsernameTaken(username: string) returns (taken: bool)
      ensures taken <==> FindUsername(users, username) < |users|
    {
      taken := exists i :: 0 <= i < |users| && users[i].username == username;
    }

    method FindById(id: Uuid) returns (k: nat)
      ensures k == FindUser(users, id)
    {
      k := 0;
      while k < |users| && users[k].id != id
        invariant k <= |users| && forall j :: 0 <= j < k ==> users[j].id != id
      {
        k := k + 1;
      }
    }

    method FindUsableToken(token: string) returns (k: nat)
      ensures k == FindUsable(jwts, token)
    {
      k := 0;
      while k < |jwts| && (jwts[k].token != token || jwts[k].revoked)
        invariant k <= |jwts| && forall j :: 0 <= j < k ==> jwts[j].token != token || jwts[j].revoked
      {
        k := k + 1;
      }
    }
  }
}
