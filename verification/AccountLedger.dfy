/** The user table as the requests and their replies tell it: who exists, under which email, with
    which password, role and tenant. The stored table never says anything else, so over every run a
    login succeeds exactly with the password last set. */
module AccountLedger {
  import opened Basics
  import opened Utf8
  import opened Accounts

  /** What a caller knows about a user. */
  datatype Entry = Entry(email: string, password: string, role: Role, tenant: Option<string>)

  type Ledger = map<nat, Entry>

  /** The users a table holds. */
  function Held(users: map<nat, User>): Ledger {
    map id | id in users :: Entry(users[id].email, users[id].hash.password, users[id].role, users[id].tenant)
  }

  /** One request and its reply: a refusal tells nothing, and neither does a login. */
  function Entered(l: Ledger, q: Request, r: Reply): Ledger {
    if q.CreateUser? && r.Created? then l[r.id := Entry(q.email, q.password, q.role, q.tenant)]
    else if q.ChangePassword? && r.Session? && q.token.sub in l then l[q.token.sub := l[q.token.sub].(password := q.password)]
    else if q.UpdateUser? && r.Done? && q.id in l then l[q.id := l[q.id].(role := q.role, tenant := q.tenant)]
    else if q.DeleteUser? && r.Done? then l - {q.id}
    else l
  }

  function Told(l: Ledger, requests: seq<Request>, replies: seq<Reply>): Ledger
    requires |requests| == |replies|
  {
    if requests == [] then l
    else
      var n := |requests| - 1;
      Entered(Told(l, requests[..n], replies[..n]), requests[n], replies[n])
  }

  /** The table after a request is the table before it with what the reply tells. */
  lemma StepIsEntered(s: State, q: Request)
    ensures Held(Handled(s, q).0.users) == Entered(Held(s.users), q, Handled(s, q).1)
  {}

  lemma RunSnoc(s: State, requests: seq<Request>)
    requires requests != []
    ensures var n := |requests| - 1;
            var (t, r) := Handled(Run(s, requests[..n]), requests[n]);
            && Run(s, requests) == t
            && Replies(s, requests)[..n] == Replies(s, requests[..n]) && Replies(s, requests)[n] == r
  {}

  /** Over every run, the users, their emails, passwords, roles and tenants are exactly what the
      requests and replies tell, starting from what the table held. */
  lemma {:induction false} TableIsTold(s: State, requests: seq<Request>)
    ensures Held(Run(s, requests).users) == Told(Held(s.users), requests, Replies(s, requests))
  {
    if requests != [] {
      var n := |requests| - 1;
      RunSnoc(s, requests);
      TableIsTold(s, requests[..n]);
      StepIsEntered(Run(s, requests[..n]), requests[n]);
    }
  }

  lemma {:induction false} RunKeepsSane(s: State, requests: seq<Request>)
    requires Sane(s)
    ensures Sane(Run(s, requests))
  {
    if requests != [] {
      var n := |requests| - 1;
      RunKeepsSane(s, requests[..n]);
      StepKeepsSane(Run(s, requests[..n]), requests[n]);
    }
  }

  /** This user has this email and this password, as the requests and replies tell. */
  predicate Knows(l: Ledger, id: nat, email: string, password: string) {
    id in l && l[id].email == email && l[id].password == password
  }

  /** Over every run, a login succeeds if and only if some user has that email and the password
      given is the one last set for them, by their creation or a later change, or the one they
      started with; and the session is that user's. */
  lemma LoginIffPasswordLastSet(s: State, requests: seq<Request>, email: string, password: string, now: int)
    requires Sane(s)
    ensures var l := Told(Held(s.users), requests, Replies(s, requests));
            var r := Handled(Run(s, requests), Login(email, password, now)).1;
            && (r.Session? <==> exists id :: Knows(l, id, email, password))
            && (r.Session? ==> Knows(l, r.token.sub, email, password))
  {
    var t := Run(s, requests);
    var l := Told(Held(s.users), requests, Replies(s, requests));
    RunKeepsSane(s, requests);
    TableIsTold(s, requests);
    LoginIff(t, email, password, now);
    forall id ensures Knows(l, id, email, password) <==> HasEmail(t.users, id, email) && t.users[id].hash == Hashed(password) {
      assert id in l <==> id in t.users;
    }
  }

  predicate LongEnough(password: string) { |password| >= 12 && |Encode(password)| <= 72 }

  ghost predicate AllLongEnough(users: map<nat, User>) {
    forall id :: id in users ==> LongEnough(users[id].hash.password)
  }

  lemma StepKeepsLongEnough(s: State, q: Request)
    requires AllLongEnough(s.users)
    ensures AllLongEnough(Handled(s, q).0.users)
  {}

  /** Over every run, every password anybody can log in with has at least 12 characters and at most
      72 bytes, if that held at the start. */
  lemma {:induction false} PasswordsStayLongEnough(s: State, requests: seq<Request>)
    requires AllLongEnough(s.users)
    ensures AllLongEnough(Run(s, requests).users)
  {
    if requests != [] {
      var n := |requests| - 1;
      PasswordsStayLongEnough(s, requests[..n]);
      StepKeepsLongEnough(Run(s, requests[..n]), requests[n]);
    }
  }
}
