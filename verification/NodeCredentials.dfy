/** Filter-node credentials: create, rotate, revoke and the check on every node request. Over
    every run, a token is accepted exactly when it is the last one issued for the node and no
    revocation came after it. */
module NodeCredentials {
  import opened Basics

  /** A token's digest; the hash is taken to be free of collisions. */
  datatype Digest = Digest(token: string)

  datatype Scope = Scope(allowAll: bool, tenants: set<string>, groups: set<string>)

  datatype Credential = Credential(tokenHash: Digest, revoked: bool, scope: Scope)

  type Table = map<string, Credential>

  /** An admin's request; `token` is the secret the generator would hand out. */
  datatype Request =
    | Create(name: string, scope: Scope, token: string)
    | Rotate(name: string, token: string)
    | Revoke(name: string)

  /** The tenants and groups that exist. */
  datatype Known = Known(tenants: set<string>, groups: set<string>)

  datatype Reply = Issued(token: string) | Revoked | Refused(status: int)

  predicate Empty(scope: Scope) {
    !scope.allowAll && scope.tenants == {} && scope.groups == {}
  }

  function Handled(t: Table, k: Known, q: Request): (Table, Reply) {
    match q
    case Create(name, scope, token) =>
      if Empty(scope) then (t, Refused(422))
      else if name in t then (t, Refused(409))
      else if !(scope.tenants <= k.tenants && scope.groups <= k.groups) then (t, Refused(422))
      else (t[name := Credential(Digest(token), false, scope)], Issued(token))
    case Rotate(name, token) =>
      if name !in t then (t, Refused(404))
      else (t[name := t[name].(tokenHash := Digest(token), revoked := false)], Issued(token))
    case Revoke(name) =>
      if name !in t then (t, Refused(404))
      else (t[name := t[name].(revoked := true)], Revoked)
  }

  // ---- The check on node requests ----

  function RemovePrefix(s: string, prefix: string): string {
    if prefix <= s then s[|prefix|..] else s
  }

  /** The token in an Authorization header, "" if there is none. */
  function Presented(authorization: Option<string>): string {
    if authorization.Some? then RemovePrefix(authorization.value, "Bearer ") else ""
  }

  predicate Accepts(t: Table, authorization: Option<string>, node: Option<string>) {
    var token := Presented(authorization);
    && token != "" && node.Some? && node.value != ""
    && node.value in t && !t[node.value].revoked && Digest(token) == t[node.value].tokenHash
  }

  /** Exactly this token is accepted for the node, or none. */
  ghost predicate Holds(t: Table, name: string, token: Option<string>) {
    forall authorization: Option<string> :: Accepts(t, authorization, Some(name)) <==>
      name != "" && Presented(authorization) != "" && token == Some(Presented(authorization))
  }

  /** What is accepted for every other node is what was before. */
  ghost predicate OthersKeepTokens(t: Table, u: Table, name: string) {
    forall authorization: Option<string>, node: Option<string> ::
      node != Some(name) ==> (Accepts(u, authorization, node) <==> Accepts(t, authorization, node))
  }

  /** Creating or rotating makes the token handed out the only one accepted for the node, revoking
      leaves none, a refusal changes nothing, and no other node is affected. A node is created unless
      its name is taken, its scope is empty or names something unknown; it is rotated or revoked
      exactly when it exists. */
  lemma HandledEffect(t: Table, k: Known, q: Request)
    ensures var (u, r) := Handled(t, k, q);
            && OthersKeepTokens(t, u, q.name)
            && (r.Issued? && !q.Revoke? ==> r.token == q.token)
            && (!r.Refused? <==>
                  match q
                  case Create(name, scope, _) =>
                    && name !in t && (scope.allowAll || scope.tenants != {} || scope.groups != {})
                    && scope.tenants <= k.tenants && scope.groups <= k.groups
                  case _ => q.name in t)
            && (match r
                case Issued(token) => Holds(u, q.name, Some(token))
                case Revoked => Holds(u, q.name, None)
                case Refused(status) =>
                  && u == t
                  && status == if !q.Create? then 404 else if !Empty(q.scope) && q.name in t then 409 else 422)
  {}

  class CredentialStore {
    var table: Table
    var lastSeen: map<string, int>

    /** Every credential has a scope. */
    ghost predicate Valid()
      reads this
    {
      forall name :: name in table ==> !Empty(table[name].scope)
    }

    constructor ()
      ensures table == map[] && lastSeen == map[] && Valid()
    {
      table, lastSeen := map[], map[];
    }

    method CreateNodeCredential(k: Known, name: string, scope: Scope, token: string, now: int) returns (r: Reply)
      requires Valid()
      modifies this
      ensures (table, r) == Handled(old(table), k, Create(name, scope, token))
      ensures Valid() && OthersKeepTokens(old(table), table, name)
      ensures r.Issued? ==> Holds(table, name, Some(r.token)) && name in table && table[name].scope == scope
      ensures r.Issued? <==>
              && name !in old(table) && (scope.allowAll || scope.tenants != {} || scope.groups != {})
              && scope.tenants <= k.tenants && scope.groups <= k.groups
      ensures lastSeen == if r.Issued? then old(lastSeen)[name := now] else old(lastSeen)
    {
      HandledEffect(table, k, Create(name, scope, token));
      if Empty(scope) { return Refused(422); }
      if name in table { return Refused(409); }
      if !(scope.tenants <= k.tenants && scope.groups <= k.groups) { return Refused(422); }
      table, lastSeen := table[name := Credential(Digest(token), false, scope)], lastSeen[name := now];
      return Issued(token);
    }

    method RotateNodeCredential(k: Known, name: string, token: string) returns (r: Reply)
      requires Valid()
      modifies this
      ensures (table, r) == Handled(old(table), k, Rotate(name, token))
      ensures Valid() && OthersKeepTokens(old(table), table, name) && (r.Issued? ==> Holds(table, name, Some(r.token)))
      ensures r.Issued? <==> name in old(table)
      ensures lastSeen == old(lastSeen)
    {
      HandledEffect(table, k, Rotate(name, token));
      if name !in table { return Refused(404); }
      table := table[name := table[name].(tokenHash := Digest(token), revoked := false)];
      return Issued(token);
    }

    method RevokeNodeCredential(k: Known, name: string) returns (r: Reply)
      requires Valid()
      modifies this
      ensures (table, r) == Handled(old(table), k, Revoke(name))
      ensures Valid() && OthersKeepTokens(old(table), table, name) && (r.Revoked? ==> Holds(table, name, None))
      ensures r.Revoked? <==> name in old(table)
      ensures lastSeen == old(lastSeen)
    {
      HandledEffect(table, k, Revoke(name));
      if name !in table { return Refused(404); }
      if !table[name].revoked {
        table := table[name := table[name].(revoked := true)];
      }
      assert table == old(table)[name := old(table)[name].(revoked := true)];
      return Revoked;
    }

    method RequireNodeToken(authorization: Option<string>, node: Option<string>, now: int) returns (ok: bool)
      modifies this
      ensures ok <==> Accepts(old(table), authorization, node)
      ensures table == old(table)
      ensures lastSeen == if ok then old(lastSeen)[node.value := now] else old(lastSeen)
    {
      var token := Presented(authorization);
      if token == "" || node.None? || node.value == "" { return false; }
      if node.value !in table || table[node.value].revoked || Digest(token) != table[node.value].tokenHash { return false; }
      lastSeen := lastSeen[node.value := now];
      return true;
    }
  }

  // ---- Runs ----

  /** A request together with what exists when it is served. */
  datatype Call = Call(known: Known, request: Request)

  function Run(t: Table, calls: seq<Call>): Table
    decreases |calls|
  {
    if calls == [] then t else Run(Handled(t, calls[0].known, calls[0].request).0, calls[1..])
  }

  function Replies(t: Table, calls: seq<Call>): (replies: seq<Reply>)
    ensures |replies| == |calls|
    decreases |calls|
  {
    if calls == [] then []
    else
      var (next, reply) := Handled(t, calls[0].known, calls[0].request);
      [reply] + Replies(next, calls[1..])
  }

  /** What the caller was last told about a node: the last reply for it that was not a refusal. */
  function LastReply(calls: seq<Call>, replies: seq<Reply>, name: string): Option<Reply>
    requires |calls| == |replies|
  {
    if calls == [] then None
    else
      var n := |calls| - 1;
      if calls[n].request.name == name && !replies[n].Refused? then Some(replies[n])
      else LastReply(calls[..n], replies[..n], name)
  }

  function Standing(t: Table, name: string): Option<Reply> {
    if name !in t then None else if t[name].revoked then Some(Revoked) else Some(Issued(t[name].tokenHash.token))
  }

  lemma {:induction false} RunSnoc(t: Table, calls: seq<Call>)
    requires calls != []
    ensures var n := |calls| - 1;
            var (last, reply) := Handled(Run(t, calls[..n]), calls[n].known, calls[n].request);
            Run(t, calls) == last && Replies(t, calls) == Replies(t, calls[..n]) + [reply]
    decreases |calls|
  {
    var n := |calls| - 1;
    if n == 0 {
      assert calls[1..] == [];
    } else {
      var next := Handled(t, calls[0].known, calls[0].request).0;
      assert calls[1..][..n - 1] == calls[..n][1..];
      RunSnoc(next, calls[1..]);
    }
  }

  /** What holds for a node: the last thing said about it, or what the table held at the start. */
  function Latest(t: Table, calls: seq<Call>, name: string): Option<Reply> {
    var last := LastReply(calls, Replies(t, calls), name);
    if last.Some? then last else Standing(t, name)
  }

  /** The stored state of a node is exactly the last thing the caller was told about it. */
  lemma {:induction false} StandingIsLatest(t: Table, calls: seq<Call>, name: string)
    ensures Standing(Run(t, calls), name) == Latest(t, calls, name)
    decreases |calls|
  {
    if calls != [] {
      var n := |calls| - 1;
      RunSnoc(t, calls);
      StandingIsLatest(t, calls[..n], name);
      assert Replies(t, calls)[..n] == Replies(t, calls[..n]);
    }
  }

  /** Over every run, a node request is accepted if and only if the last reply about that node that
      was not a refusal issued the very token it presents. */
  lemma AcceptedIffLastIssued(t: Table, calls: seq<Call>, authorization: Option<string>, node: Option<string>)
    ensures Accepts(Run(t, calls), authorization, node) <==>
            && Presented(authorization) != "" && node.Some? && node.value != ""
            && Latest(t, calls, node.value) == Some(Issued(Presented(authorization)))
  {
    if node.Some? {
      StandingIsLatest(t, calls, node.value);
    }
  }

  /** In particular for a token sent as a bearer token. */
  lemma BearerAcceptedIff(t: Table, calls: seq<Call>, token: string, name: string)
    ensures Accepts(Run(t, calls), Some("Bearer " + token), Some(name)) <==>
            token != "" && name != "" && Latest(t, calls, name) == Some(Issued(token))
  {
    assert ("Bearer " + token)[|"Bearer "|..] == token;
    AcceptedIffLastIssued(t, calls, Some("Bearer " + token), Some(name));
  }

  /** No token is handed out twice, nor one that the table held at the start. */
  predicate FreshTokens(t: Table, replies: seq<Reply>) {
    && (forall i, j :: 0 <= i < j < |replies| && replies[i].Issued? ==> replies[i] != replies[j])
    && (forall name, i :: name in t && 0 <= i < |replies| && replies[i].Issued? ==> replies[i].token != t[name].tokenHash.token)
  }

  lemma {:induction false} LastReplyAt(calls: seq<Call>, replies: seq<Reply>, name: string, n: nat)
    requires |calls| == |replies| && n < |calls|
    requires calls[n].request.name == name && !replies[n].Refused?
    ensures exists m :: n <= m < |calls| && calls[m].request.name == name && LastReply(calls, replies, name) == Some(replies[m])
  {
    var last := |calls| - 1;
    if calls[last].request.name == name && !replies[last].Refused? {
      assert LastReply(calls, replies, name) == Some(replies[last]);
    } else {
      LastReplyAt(calls[..last], replies[..last], name, n);
    }
  }

  lemma {:induction false} LastReplyFrom(calls: seq<Call>, replies: seq<Reply>, name: string)
    requires |calls| == |replies|
    ensures LastReply(calls, replies, name).Some? ==>
              exists m :: 0 <= m < |calls| && calls[m].request.name == name && LastReply(calls, replies, name) == Some(replies[m])
  {
    if calls != [] {
      var last := |calls| - 1;
      if calls[last].request.name != name || replies[last].Refused? {
        LastReplyFrom(calls[..last], replies[..last], name);
      }
    }
  }

  lemma NotTheLast(t: Table, calls: seq<Call>, replies: seq<Reply>, i: nat, name: string)
    requires |calls| == |replies| && FreshTokens(t, replies) && i < |calls| && replies[i].Issued?
    requires calls[i].request.name != name || exists j :: i < j < |calls| && calls[j].request.name == name && !replies[j].Refused?
    ensures LastReply(calls, replies, name) != Some(replies[i]) && Standing(t, name) != Some(replies[i])
  {
    if calls[i].request.name != name {
      LastReplyFrom(calls, replies, name);
    } else {
      var j :| i < j < |calls| && calls[j].request.name == name && !replies[j].Refused?;
      LastReplyAt(calls, replies, name, j);
    }
  }

  /** With fresh tokens, a token issued to one node is never accepted for another, and one that a
      later rotation or revocation of its node replaced is never accepted again. */
  lemma ReplacedTokenStaysDead(t: Table, calls: seq<Call>, i: nat, authorization: Option<string>, name: string)
    requires FreshTokens(t, Replies(t, calls)) && i < |calls| && Replies(t, calls)[i] == Issued(Presented(authorization))
    requires || calls[i].request.name != name
             || exists j :: i < j < |calls| && calls[j].request.name == name && !Replies(t, calls)[j].Refused?
    ensures !Accepts(Run(t, calls), authorization, Some(name))
  {
    NotTheLast(t, calls, Replies(t, calls), i, name);
    AcceptedIffLastIssued(t, calls, authorization, Some(name));
  }

  /** The i-th call created this node with this scope, of tenants and groups that existed. */
  predicate CreatedAt(calls: seq<Call>, replies: seq<Reply>, i: nat, name: string, scope: Scope) {
    && i < |calls| && i < |replies| && replies[i].Issued?
    && calls[i].request.Create? && calls[i].request.name == name && calls[i].request.scope == scope
    && scope.tenants <= calls[i].known.tenants && scope.groups <= calls[i].known.groups
  }

  /** A node that exists is not created again. */
  lemma {:induction false} CreatedOnlyIfAbsent(t: Table, calls: seq<Call>, i: nat, name: string, scope: Scope)
    requires CreatedAt(calls, Replies(t, calls), i, name, scope)
    ensures name !in t
    decreases |calls|
  {
    if i > 0 {
      var next := Handled(t, calls[0].known, calls[0].request).0;
      assert Replies(t, calls)[1..] == Replies(next, calls[1..]);
      CreatedOnlyIfAbsent(next, calls[1..], i - 1, name, scope);
    }
  }

  ghost predicate WasCreated(calls: seq<Call>, replies: seq<Reply>, name: string, scope: Scope) {
    exists i: nat :: CreatedAt(calls, replies, i, name, scope)
  }

  /** Creations by the calls after the first one. */
  lemma CreatedLater(calls: seq<Call>, replies: seq<Reply>, name: string, scope: Scope)
    requires calls != [] && |calls| == |replies|
    ensures WasCreated(calls, replies, name, scope) <==>
            CreatedAt(calls, replies, 0, name, scope) || WasCreated(calls[1..], replies[1..], name, scope)
  {
    if i: nat :| CreatedAt(calls, replies, i, name, scope) && i > 0 {
      assert CreatedAt(calls[1..], replies[1..], i - 1, name, scope);
    }
    if i: nat :| CreatedAt(calls[1..], replies[1..], i, name, scope) {
      assert CreatedAt(calls, replies, i + 1, name, scope);
    }
  }

  /** Over every run, a node that was not there at the start exists with a scope if and only if some
      call asked to create it with exactly that scope and was answered with a token. */
  lemma {:induction false} ScopeIsAsRequested(t: Table, calls: seq<Call>, name: string, scope: Scope)
    requires name !in t
    ensures name in Run(t, calls) && Run(t, calls)[name].scope == scope <==> WasCreated(calls, Replies(t, calls), name, scope)
    decreases |calls|
  {
    if calls != [] {
      var (next, reply) := Handled(t, calls[0].known, calls[0].request);
      var rest, replies := calls[1..], Replies(t, calls);
      assert replies[1..] == Replies(next, rest);
      CreatedLater(calls, replies, name, scope);
      if name in next {
        ScopeNeverChanges(next, rest, name);
        if i: nat :| CreatedAt(rest, replies[1..], i, name, scope) {
          CreatedOnlyIfAbsent(next, rest, i, name, scope);
        }
      } else {
        ScopeIsAsRequested(next, rest, name, scope);
      }
    }
  }

  /** A node's scope is the one it was created with: nothing widens it. */
  lemma {:induction false} ScopeNeverChanges(t: Table, calls: seq<Call>, name: string)
    requires name in t
    ensures name in Run(t, calls) && Run(t, calls)[name].scope == t[name].scope
    decreases |calls|
  {
    if calls != [] {
      ScopeNeverChanges(Handled(t, calls[0].known, calls[0].request).0, calls[1..], name);
    }
  }

  lemma {:induction false} ScopeNeverEmpty(t: Table, calls: seq<Call>)
    requires forall name :: name in t ==> !Empty(t[name].scope)
    ensures forall name :: name in Run(t, calls) ==> !Empty(Run(t, calls)[name].scope)
    decreases |calls|
  {
    if calls != [] {
      ScopeNeverEmpty(Handled(t, calls[0].known, calls[0].request).0, calls[1..]);
    }
  }
}
