/** User accounts and their sessions: login, password change, and the admin's user endpoints.
    Over every run, a session is accepted exactly while no password change came after it, and the
    deployment keeps an admin. */
module Accounts {
  import opened Basics
  import opened Utf8

  /** A password's hash; hashing is taken to be free of collisions. */
  datatype Hashed = Hashed(password: string)

  /** `Unknown` stands for every role text that is none of the three. */
  datatype Role = Admin | Operator | Viewer | Unknown

  datatype User = User(email: string, hash: Hashed, role: Role, tenant: Option<string>, version: nat)

  /** The claims of a session token that are read back: the user, `tv` and the time of issue in seconds. */
  datatype Token = Token(sub: nat, tv: nat, iat: int)

  const ACCESS_TOKEN_TTL := 12 * 3600

  /** The user table by primary key, the next unused key, and the tokens the signing key vouches for. */
  datatype State = State(users: map<nat, User>, nextId: nat, issued: set<Token>)

  datatype Request =
    | Login(email: string, password: string, now: int)
    | ChangePassword(token: Token, current: string, password: string, now: int)
    | CreateUser(token: Token, email: string, password: string, role: Role, tenant: Option<string>, now: int)
    | UpdateUser(token: Token, id: nat, role: Role, tenant: Option<string>, now: int)
    | DeleteUser(token: Token, id: nat, now: int)

  datatype Reply = Session(token: Token) | Created(id: nat) | Done | Refused(status: int)

  predicate Strong(password: string) { |password| >= 12 && |Encode(password)| <= 72 }

  /** `get_current_user`: a genuine token, neither ahead of the clock nor expired, of an existing user at its
      current version. */
  predicate Accepted(s: State, token: Token, now: int) {
    && token in s.issued && token.iat <= now < token.iat + ACCESS_TOKEN_TTL
    && token.sub in s.users && token.tv == s.users[token.sub].version
  }

  function Admins(users: map<nat, User>): set<nat> {
    set id | id in users && users[id].role.Admin?
  }

  predicate HasEmail(users: map<nat, User>, id: nat, email: string) { id in users && users[id].email == email }

  ghost predicate EmailTaken(users: map<nat, User>, email: string) { exists id :: HasEmail(users, id, email) }

  ghost function EmailOwner(users: map<nat, User>, email: string): nat
    requires EmailTaken(users, email)
  {
    var id :| HasEmail(users, id, email); id
  }

  // ---- The endpoints, on values ----

  ghost function LoggedIn(s: State, email: string, password: string, now: int): (State, Reply) {
    if !EmailTaken(s.users, email) || s.users[EmailOwner(s.users, email)].hash != Hashed(password) then (s, Refused(401))
    else
      var id := EmailOwner(s.users, email);
      var token := Token(id, s.users[id].version, now);
      (s.(issued := s.issued + {token}), Session(token))
  }

  function PasswordChanged(s: State, token: Token, current: string, password: string, now: int): (State, Reply) {
    if !Accepted(s, token, now) then (s, Refused(401))
    else if !Strong(password) then (s, Refused(422))
    else
      var user := s.users[token.sub];
      if user.hash != Hashed(current) then (s, Refused(401))
      else if password == current then (s, Refused(400))
      else
        var renewed := Token(token.sub, user.version + 1, now);
        (s.(users := s.users[token.sub := user.(hash := Hashed(password), version := user.version + 1)],
            issued := s.issued + {renewed}),
         Session(renewed))
  }

  ghost function UserCreated(s: State, email: string, password: string, role: Role, tenant: Option<string>): (State, Reply) {
    if !Strong(password) || role.Unknown? || (!role.Admin? && tenant.None?) then (s, Refused(422))
    else if EmailTaken(s.users, email) then (s, Refused(409))
    else (s.(users := s.users[s.nextId := User(email, Hashed(password), role, tenant, 0)], nextId := s.nextId + 1), Created(s.nextId))
  }

  function UserUpdated(s: State, id: nat, role: Role, tenant: Option<string>): (State, Reply) {
    if role.Unknown? || (!role.Admin? && tenant.None?) then (s, Refused(422))
    else if id !in s.users then (s, Refused(404))
    else if s.users[id].role.Admin? && !role.Admin? && |Admins(s.users)| <= 1 then (s, Refused(400))
    else (s.(users := s.users[id := s.users[id].(role := role, tenant := tenant)]), Done)
  }

  function UserDeleted(s: State, actor: nat, id: nat): (State, Reply) {
    if id !in s.users then (s, Refused(404))
    else if id == actor then (s, Refused(400))
    else (s.(users := s.users - {id}), Done)
  }

  ghost function Handled(s: State, q: Request): (State, Reply) {
    if q.Login? then LoggedIn(s, q.email, q.password, q.now)
    else if q.ChangePassword? then PasswordChanged(s, q.token, q.current, q.password, q.now)
    else if !Accepted(s, q.token, q.now) then (s, Refused(401))
    else if !s.users[q.token.sub].role.Admin? then (s, Refused(403))
    else
      match q
      case CreateUser(_, email, password, role, tenant, _) => UserCreated(s, email, password, role, tenant)
      case UpdateUser(_, id, role, tenant, _) => UserUpdated(s, id, role, tenant)
      case DeleteUser(token, id, _) => UserDeleted(s, token.sub, id)
  }

  // ---- What every endpoint keeps ----

  ghost predicate Sane(s: State) {
    && (forall id :: id in s.users ==> id < s.nextId)
    && (forall token :: token in s.issued ==> token.sub < s.nextId)
    && (forall token :: token in s.issued && token.sub in s.users ==> token.tv <= s.users[token.sub].version)
    && forall i, j :: i in s.users && j in s.users && s.users[i].email == s.users[j].email ==> i == j
  }

  /** Somebody can administer the deployment, and only admins are unrestricted. */
  ghost predicate Governed(users: map<nat, User>) {
    && (exists id :: id in users && users[id].role.Admin?)
    && forall id :: id in users && !users[id].role.Admin? ==> users[id].tenant.Some?
  }

  lemma OtherAdmin(users: map<nat, User>, id: nat) returns (other: nat)
    requires |Admins(users)| > 1
    ensures other in users && users[other].role.Admin? && other != id
  {
    assert Admins(users) - {id} != {} by {
      if Admins(users) <= {id} {
        SubsetSize(Admins(users), {id});
      }
    }
    other :| other in Admins(users) - {id};
  }

  lemma CreateKeepsSane(s: State, email: string, password: string, role: Role, tenant: Option<string>)
    requires Sane(s)
    ensures Sane(UserCreated(s, email, password, role, tenant).0)
  {
    assert !EmailTaken(s.users, email) ==> forall id :: id in s.users ==> !HasEmail(s.users, id, email);
  }

  lemma ChangeKeepsSane(s: State, token: Token, current: string, password: string, now: int)
    requires Sane(s)
    ensures Sane(PasswordChanged(s, token, current, password, now).0)
  {}

  lemma StepKeepsSane(s: State, q: Request)
    requires Sane(s)
    ensures Sane(Handled(s, q).0)
  {
    if q.CreateUser? {
      CreateKeepsSane(s, q.email, q.password, q.role, q.tenant);
    } else if q.ChangePassword? {
      ChangeKeepsSane(s, q.token, q.current, q.password, q.now);
    }
  }

  /** Demoting a user leaves another admin: the guard refuses the last one. */
  lemma UpdateKeepsGoverned(s: State, id: nat, role: Role, tenant: Option<string>)
    requires Governed(s.users)
    ensures Governed(UserUpdated(s, id, role, tenant).0.users)
  {
    var (after, reply) := UserUpdated(s, id, role, tenant);
    if reply.Done? {
      var admin :| admin in s.users && s.users[admin].role.Admin?;
      if s.users[id].role.Admin? && !role.Admin? {
        admin := OtherAdmin(s.users, id);
      }
      assert admin in after.users && after.users[admin].role.Admin?;
    }
  }

  /** Deleting a user leaves the admin who did it. */
  lemma DeleteKeepsGoverned(s: State, actor: nat, id: nat)
    requires Governed(s.users) && actor in s.users && s.users[actor].role.Admin?
    ensures Governed(UserDeleted(s, actor, id).0.users)
  {
    var after := UserDeleted(s, actor, id).0.users;
    assert actor in after && after[actor].role.Admin?;
  }

  lemma StepKeepsGoverned(s: State, q: Request)
    requires Governed(s.users) && Sane(s)
    ensures Governed(Handled(s, q).0.users)
  {
    if q.UpdateUser? {
      UpdateKeepsGoverned(s, q.id, q.role, q.tenant);
    } else if q.DeleteUser? {
      if Accepted(s, q.token, q.now) && s.users[q.token.sub].role.Admin? {
        DeleteKeepsGoverned(s, q.token.sub, q.id);
      }
    } else {
      var admin :| admin in s.users && s.users[admin].role.Admin?;
      var after := Handled(s, q).0.users;
      assert admin in after && after[admin].role.Admin?;
    }
  }

  // ---- When each endpoint succeeds ----

  /** A login succeeds if and only if a user has this email and this password; the session is that
      user's, at their current version, and nothing else changes. */
  lemma LoginIff(s: State, email: string, password: string, now: int)
    requires Sane(s)
    ensures var (t, r) := Handled(s, Login(email, password, now));
            && (r.Session? <==> exists id :: HasEmail(s.users, id, email) && s.users[id].hash == Hashed(password))
            && (r.Session? ==> HasEmail(s.users, r.token.sub, email) && s.users[r.token.sub].hash == Hashed(password)
                               && r.token.iat == now && r.token.tv == s.users[r.token.sub].version)
            && t.users == s.users
  {
    if EmailTaken(s.users, email) {
      assert forall id :: HasEmail(s.users, id, email) ==> id == EmailOwner(s.users, email);
    }
  }

  ghost predicate AnotherAdmin(users: map<nat, User>, id: nat) {
    exists other :: other in users && other != id && users[other].role.Admin?
  }

  lemma OnlyAdminIff(users: map<nat, User>, id: nat)
    requires id in users && users[id].role.Admin?
    ensures |Admins(users)| <= 1 <==> !AnotherAdmin(users, id)
  {
    if AnotherAdmin(users, id) {
      var other :| other in users && other != id && users[other].role.Admin?;
      SubsetSize({id, other}, Admins(users));
      assert |{id, other}| == 2;
    } else if |Admins(users)| > 1 {
      var other := OtherAdmin(users, id);
    }
  }

  /** A password is changed if and only if the session is accepted, the current password is the
      user's, and the new one is another one of at least 12 characters and at most 72 bytes. */
  lemma ChangeSucceedsIff(s: State, token: Token, current: string, password: string, now: int)
    ensures Handled(s, ChangePassword(token, current, password, now)).1.Session? <==>
            && Accepted(s, token, now) && s.users[token.sub].hash == Hashed(current)
            && password != current && |password| >= 12 && |Encode(password)| <= 72
    ensures var r := Handled(s, ChangePassword(token, current, password, now)).1;
            r.Refused? ==>
              && r.status in {400, 401, 422}
              && (r.status == 422 <==> Accepted(s, token, now) && (|password| < 12 || |Encode(password)| > 72))
              && (r.status == 400 ==> Accepted(s, token, now) && password == current && s.users[token.sub].hash == Hashed(current))
              && (r.status == 401 ==> Accepted(s, token, now) ==> s.users[token.sub].hash != Hashed(current))
  {}

  /** The caller's session is accepted and is an admin's. */
  predicate ByAdmin(s: State, token: Token, now: int) {
    Accepted(s, token, now) && s.users[token.sub].role.Admin?
  }

  predicate Scoped(role: Role, tenant: Option<string>) {
    role.Admin? || ((role.Operator? || role.Viewer?) && tenant.Some?)
  }

  /** When an admin's request is carried out: never for a caller who is not an admin; a user is
      created under an unused email with a password of 12 characters to 72 bytes; nobody is given a
      role without a tenant but admins; the only admin is not demoted; nobody deletes themselves. */
  lemma AdminRequestSucceedsIff(s: State, q: Request)
    requires !q.Login? && !q.ChangePassword?
    ensures !Handled(s, q).1.Refused? <==>
            && ByAdmin(s, q.token, q.now)
            && (match q
                case CreateUser(_, email, password, role, tenant, _) =>
                  && |password| >= 12 && |Encode(password)| <= 72 && Scoped(role, tenant)
                  && forall id :: id in s.users ==> s.users[id].email != email
                case UpdateUser(_, id, role, tenant, _) =>
                  && Scoped(role, tenant) && id in s.users
                  && (s.users[id].role.Admin? && !role.Admin? ==> AnotherAdmin(s.users, id))
                case DeleteUser(token, id, _) => id in s.users && id != token.sub)
    ensures Handled(s, q).1 == Refused(401) <==> !Accepted(s, q.token, q.now)
    ensures Handled(s, q).1 == Refused(403) <==> Accepted(s, q.token, q.now) && !s.users[q.token.sub].role.Admin?
  {
    if q.CreateUser? {
      assert EmailTaken(s.users, q.email) <==> exists id :: HasEmail(s.users, id, q.email);
      assert forall id :: id in s.users ==> (HasEmail(s.users, id, q.email) <==> s.users[id].email == q.email);
    } else if q.UpdateUser? && q.id in s.users && s.users[q.id].role.Admin? {
      OnlyAdminIff(s.users, q.id);
    }
  }

  /** An admin whose request is refused learns why from the status: 422 for a password or role that
      is not allowed, 404 for a user who does not exist, 409 for an email in use, 400 for demoting
      the only admin or deleting oneself. */
  lemma RefusalSaysWhy(s: State, q: Request)
    requires !q.Login? && !q.ChangePassword? && ByAdmin(s, q.token, q.now) && Handled(s, q).1.Refused?
    ensures var status := Handled(s, q).1.status;
            && status in {400, 404, 409, 422}
            && (status == 422 <==>
                  && (q.CreateUser? || q.UpdateUser?)
                  && (!Scoped(q.role, q.tenant) || (q.CreateUser? && (|q.password| < 12 || |Encode(q.password)| > 72))))
            && (status == 409 <==> status != 422 && q.CreateUser?)
            && (status == 404 <==> status != 422 && !q.CreateUser? && q.id !in s.users)
            && (status == 400 && q.UpdateUser? ==> !q.role.Admin? && s.users[q.id].role.Admin? && !AnotherAdmin(s.users, q.id))
            && (status == 400 && q.DeleteUser? ==> q.id == q.token.sub)
  {
    if q.UpdateUser? && q.id in s.users && s.users[q.id].role.Admin? {
      OnlyAdminIff(s.users, q.id);
    }
  }

  // ---- What each endpoint does to sessions ----

  /** Every session of every other user is accepted exactly when it was before. */
  ghost predicate OthersKeepSessions(s: State, t: State, id: nat) {
    forall x: Token, n: int :: x.sub != id ==> (Accepted(t, x, n) <==> Accepted(s, x, n))
  }

  ghost predicate AllKeepSessions(s: State, t: State) {
    forall x: Token, n: int :: Accepted(t, x, n) <==> Accepted(s, x, n)
  }

  /** No session of this user that existed before is accepted at any time. */
  ghost predicate EndsSessions(s: State, t: State, id: nat) {
    forall x: Token, n: int :: x in s.issued && x.sub == id ==> !Accepted(t, x, n)
  }

  /** A password change ends all of the user's sessions but the one it hands out. */
  lemma ChangeEndsSessions(s: State, token: Token, current: string, password: string, now: int)
    requires Sane(s)
    ensures var (t, r) := PasswordChanged(s, token, current, password, now);
            && OthersKeepSessions(s, t, token.sub)
            && (if r.Session? then Accepted(t, r.token, now) && EndsSessions(s, t, token.sub) else t == s)
  {}

  /** A new user starts without a session, and nobody else's changes. */
  lemma CreateKeepsSessions(s: State, email: string, password: string, role: Role, tenant: Option<string>)
    requires Sane(s)
    ensures AllKeepSessions(s, UserCreated(s, email, password, role, tenant).0)
  {}

  /** A change of role or tenant ends nobody's session. */
  lemma UpdateKeepsSessions(s: State, id: nat, role: Role, tenant: Option<string>)
    ensures AllKeepSessions(s, UserUpdated(s, id, role, tenant).0)
  {}

  /** A deletion ends the sessions of that user and of nobody else. */
  lemma DeleteEndsSessions(s: State, actor: nat, id: nat)
    ensures var (t, r) := UserDeleted(s, actor, id);
            OthersKeepSessions(s, t, id) && (if r.Done? then EndsSessions(s, t, id) else t == s)
  {}

  // ---- Runs ----

  ghost function Run(s: State, requests: seq<Request>): State {
    if requests == [] then s
    else Handled(Run(s, requests[..|requests| - 1]), requests[|requests| - 1]).0
  }

  ghost function Replies(s: State, requests: seq<Request>): (replies: seq<Reply>)
    ensures |replies| == |requests|
  {
    if requests == [] then []
    else
      var n := |requests| - 1;
      Replies(s, requests[..n]) + [Handled(Run(s, requests[..n]), requests[n]).1]
  }

  /** Over every run that starts with an admin, an admin remains, every other user has a tenant,
      and no two users share an email address. */
  lemma {:induction false} AdminAlwaysRemains(s: State, requests: seq<Request>)
    requires Sane(s) && Governed(s.users)
    ensures Sane(Run(s, requests)) && Governed(Run(s, requests).users)
  {
    if requests != [] {
      var n := |requests| - 1;
      AdminAlwaysRemains(s, requests[..n]);
      StepKeepsSane(Run(s, requests[..n]), requests[n]);
      StepKeepsGoverned(Run(s, requests[..n]), requests[n]);
    }
  }

  // ---- Sessions and password changes ----

  /** The request changed the password of this user. */
  predicate Changes(q: Request, reply: Reply, id: nat) {
    q.ChangePassword? && reply.Session? && reply.token.sub == id
  }

  predicate ChangedAt(requests: seq<Request>, replies: seq<Reply>, n: nat, id: nat) {
    n < |requests| && n < |replies| && Changes(requests[n], replies[n], id)
  }

  predicate NoLaterChange(requests: seq<Request>, replies: seq<Reply>, n: nat, id: nat) {
    forall m :: n < m < |requests| ==> !ChangedAt(requests, replies, m, id)
  }

  /** What the state knows about the session issued by the n-th request. */
  ghost predicate Tracked(s: State, requests: seq<Request>, replies: seq<Reply>, n: nat)
    requires n < |replies| && replies[n].Session?
  {
    var token := replies[n].token;
    && token in s.issued
    && (token.sub in s.users ==>
          && token.tv <= s.users[token.sub].version
          && (token.tv == s.users[token.sub].version <==> NoLaterChange(requests, replies, n, token.sub)))
  }

  ghost predicate SessionInv(s: State, requests: seq<Request>, replies: seq<Reply>) {
    && |requests| == |replies|
    && (forall n: nat :: n < |replies| && replies[n].Session? ==> Tracked(s, requests, replies, n))
    && (forall token :: token in s.issued ==> exists n: nat :: n < |replies| && replies[n] == Session(token))
  }

  /** What one request does to sessions and versions. */
  lemma StepEffect(s: State, q: Request)
    requires Sane(s)
    ensures var (after, reply) := Handled(s, q);
            && after.issued == (if reply.Session? then s.issued + {reply.token} else s.issued)
            && (reply.Session? ==> reply.token.sub in after.users && reply.token.tv == after.users[reply.token.sub].version)
            && (forall id :: id in after.users && id < s.nextId ==>
                  && id in s.users
                  && after.users[id].version == s.users[id].version + if Changes(q, reply, id) then 1 else 0)
  {}

  lemma Snoc(requests: seq<Request>, replies: seq<Reply>, q: Request, reply: Reply, n: nat, id: nat)
    requires |requests| == |replies| && n < |replies|
    ensures NoLaterChange(requests + [q], replies + [reply], n, id) <==>
            NoLaterChange(requests, replies, n, id) && !Changes(q, reply, id)
  {
    var last := |requests|;
    assert forall m: nat :: m < last ==> (ChangedAt(requests + [q], replies + [reply], m, id) <==> ChangedAt(requests, replies, m, id));
    assert ChangedAt(requests + [q], replies + [reply], last, id) <==> Changes(q, reply, id);
  }

  lemma StepKeepsSessions(s: State, requests: seq<Request>, replies: seq<Reply>, q: Request)
    requires Sane(s) && SessionInv(s, requests, replies)
    ensures SessionInv(Handled(s, q).0, requests + [q], replies + [Handled(s, q).1])
  {
    var (after, reply) := Handled(s, q);
    var requests', replies' := requests + [q], replies + [reply];
    StepEffect(s, q);
    forall n: nat | n < |replies'| && replies'[n].Session? ensures Tracked(after, requests', replies', n) {
      if n < |replies| {
        assert Tracked(s, requests, replies, n);
        Snoc(requests, replies, q, reply, n, replies[n].token.sub);
      }
    }
    forall token | token in after.issued ensures exists n: nat :: n < |replies'| && replies'[n] == Session(token) {
      if token in s.issued {
        var n: nat :| n < |replies| && replies[n] == Session(token);
        assert replies'[n] == Session(token);
      } else {
        assert replies'[|replies|] == Session(token);
      }
    }
  }

  lemma {:induction false} RunKeepsSessions(s: State, requests: seq<Request>)
    requires Sane(s) && s.issued == {}
    ensures Sane(Run(s, requests)) && SessionInv(Run(s, requests), requests, Replies(s, requests))
  {
    if requests != [] {
      var n := |requests| - 1;
      RunKeepsSessions(s, requests[..n]);
      StepKeepsSane(Run(s, requests[..n]), requests[n]);
      StepKeepsSessions(Run(s, requests[..n]), requests[..n], Replies(s, requests[..n]), requests[n]);
      assert requests == requests[..n] + [requests[n]];
    }
  }

  /** The n-th request issued the token, and no later one changed its user's password. */
  predicate Current(requests: seq<Request>, replies: seq<Reply>, token: Token, n: nat) {
    n < |replies| && replies[n] == Session(token) && NoLaterChange(requests, replies, n, token.sub)
  }

  ghost predicate IsCurrent(requests: seq<Request>, replies: seq<Reply>, token: Token) {
    exists n: nat :: Current(requests, replies, token, n)
  }

  lemma AcceptedIffCurrent(s: State, requests: seq<Request>, replies: seq<Reply>, token: Token, now: int)
    requires SessionInv(s, requests, replies)
    ensures Accepted(s, token, now) <==>
            token.sub in s.users && token.iat <= now < token.iat + ACCESS_TOKEN_TTL && IsCurrent(requests, replies, token)
  {
    if Accepted(s, token, now) {
      var n: nat :| n < |replies| && replies[n] == Session(token);
      assert Tracked(s, requests, replies, n);
      assert Current(requests, replies, token, n);
    }
  }

  /** Over every run, a session is accepted if and only if its user still exists, it is not from the
      future, twelve hours have not passed, and a request issued it with no later password change of that user. */
  lemma AcceptedIffNoLaterChange(s: State, requests: seq<Request>, token: Token, now: int)
    requires Sane(s) && s.issued == {}
    ensures Accepted(Run(s, requests), token, now) <==>
            && token.sub in Run(s, requests).users && token.iat <= now < token.iat + 12 * 3600
            && IsCurrent(requests, Replies(s, requests), token)
  {
    RunKeepsSessions(s, requests);
    AcceptedIffCurrent(Run(s, requests), requests, Replies(s, requests), token, now);
  }

  // ---- The table, updated in place ----

  class AccountStore {
    var users: map<nat, User>
    var nextId: nat
    var issued: set<Token>

    ghost function View(): State
      reads this
    {
      State(users, nextId, issued)
    }

    /** Keys and emails are unique, no session is ahead of its user, an admin exists, and every other
        user has a tenant. */
    ghost predicate Valid()
      reads this
    {
      Sane(View()) && Governed(users)
    }

    constructor (email: string, password: string)
      ensures Valid() && issued == {} && users == map[0 := User(email, Hashed(password), Admin, None, 0)]
    {
      users := map[0 := User(email, Hashed(password), Admin, None, 0)];
      nextId, issued := 1, {};
      new;
      assert 0 in users && users[0].role.Admin?;
    }

    method LogIn(email: string, password: string, now: int) returns (r: Reply)
      requires Valid()
      modifies this
      ensures (View(), r) == Handled(old(View()), Login(email, password, now))
      ensures Valid() && (r.Session? ==> Accepted(View(), r.token, now))
      ensures r.Session? <==> exists id :: HasEmail(users, id, email) && users[id].hash == Hashed(password)
    {
      StepKeepsSane(View(), Login(email, password, now));
      LoginIff(View(), email, password, now);
      if id: nat :| id in users.Keys && HasEmail(users, id, email) {
        assert EmailOwner(users, email) == id;
        if users[id].hash != Hashed(password) { return Refused(401); }
        var token := Token(id, users[id].version, now);
        issued := issued + {token};
        return Session(token);
      }
      return Refused(401);
    }

    method SetPassword(token: Token, current: string, password: string, now: int) returns (r: Reply)
      requires Valid()
      modifies this
      ensures (View(), r) == Handled(old(View()), ChangePassword(token, current, password, now))
      ensures Valid() && OthersKeepSessions(old(View()), View(), token.sub)
      ensures r.Session? ==> Accepted(View(), r.token, now) && EndsSessions(old(View()), View(), token.sub)
    {
      StepKeepsSane(View(), ChangePassword(token, current, password, now));
      StepKeepsGoverned(View(), ChangePassword(token, current, password, now));
      ChangeEndsSessions(View(), token, current, password, now);
      if !(token in issued && token.iat <= now < token.iat + ACCESS_TOKEN_TTL) { return Refused(401); }
      if token.sub !in users || token.tv != users[token.sub].version { return Refused(401); }
      if !Strong(password) { return Refused(422); }
      var user := users[token.sub];
      if user.hash != Hashed(current) { return Refused(401); }
      if password == current { return Refused(400); }
      users := users[token.sub := user.(hash := Hashed(password), version := user.version + 1)];
      var renewed := Token(token.sub, user.version + 1, now);
      issued := issued + {renewed};
      return Session(renewed);
    }

    /** The dependency the admin endpoints share: None if the caller may go on. */
    method RequireAdmin(token: Token, now: int) returns (refusal: Option<Reply>)
      ensures refusal == if !Accepted(View(), token, now) then Some(Refused(401))
                         else if !users[token.sub].role.Admin? then Some(Refused(403)) else None
    {
      if !(token in issued && token.iat <= now < token.iat + ACCESS_TOKEN_TTL) { return Some(Refused(401)); }
      if token.sub !in users || token.tv != users[token.sub].version { return Some(Refused(401)); }
      if !users[token.sub].role.Admin? { return Some(Refused(403)); }
      return None;
    }

    method Create(token: Token, email: string, password: string, role: Role, tenant: Option<string>, now: int) returns (r: Reply)
      requires Valid()
      modifies this
      ensures (View(), r) == Handled(old(View()), CreateUser(token, email, password, role, tenant, now))
      ensures Valid() && AllKeepSessions(old(View()), View())
    {
      StepKeepsSane(View(), CreateUser(token, email, password, role, tenant, now));
      StepKeepsGoverned(View(), CreateUser(token, email, password, role, tenant, now));
      CreateKeepsSessions(View(), email, password, role, tenant);
      var refusal := RequireAdmin(token, now);
      if refusal.Some? { return refusal.value; }
      if !Strong(password) || role.Unknown? { return Refused(422); }
      if !role.Admin? && tenant.None? { return Refused(422); }
      if id: nat :| id in users.Keys && HasEmail(users, id, email) { return Refused(409); }
      users := users[nextId := User(email, Hashed(password), role, tenant, 0)];
      nextId := nextId + 1;
      return Created(nextId - 1);
    }

    method Update(token: Token, id: nat, role: Role, tenant: Option<string>, now: int) returns (r: Reply)
      requires Valid()
      modifies this
      ensures (View(), r) == Handled(old(View()), UpdateUser(token, id, role, tenant, now))
      ensures Valid() && AllKeepSessions(old(View()), View())
    {
      StepKeepsSane(View(), UpdateUser(token, id, role, tenant, now));
      StepKeepsGoverned(View(), UpdateUser(token, id, role, tenant, now));
      UpdateKeepsSessions(View(), id, role, tenant);
      var refusal := RequireAdmin(token, now);
      if refusal.Some? { return refusal.value; }
      if role.Unknown? { return Refused(422); }
      if !role.Admin? && tenant.None? { return Refused(422); }
      if id !in users { return Refused(404); }
      if users[id].role.Admin? && !role.Admin? && |Admins(users)| <= 1 { return Refused(400); }
      users := users[id := users[id].(role := role, tenant := tenant)];
      return Done;
    }

    method Delete(token: Token, id: nat, now: int) returns (r: Reply)
      requires Valid()
      modifies this
      ensures (View(), r) == Handled(old(View()), DeleteUser(token, id, now))
      ensures Valid() && OthersKeepSessions(old(View()), View(), id) && (r.Done? ==> EndsSessions(old(View()), View(), id))
    {
      StepKeepsSane(View(), DeleteUser(token, id, now));
      StepKeepsGoverned(View(), DeleteUser(token, id, now));
      DeleteEndsSessions(View(), token.sub, id);
      var refusal := RequireAdmin(token, now);
      if refusal.Some? { return refusal.value; }
      if id !in users { return Refused(404); }
      if id == token.sub { return Refused(400); }
      users := users - {id};
      return Done;
    }
  }
}
