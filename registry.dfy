/**
 * The email/socket registry of server/index.js: the two module-level maps
 * `emailToSocketIdMap` and `socketIdToEmailMap`, as a value, with the
 * updates `room:join` and `disconnect` make to them.
 *
 * The server never checks that the two maps stay inverse to each other,
 * and they do not: a second join under the same email, or a socket joining
 * again under a new email, leaves entries that the other map no longer
 * backs. The lemmas below say exactly when that happens and what a later
 * disconnect then deletes.
 */
module EmailRegistry {
  import opened Signals

  datatype Registry = Registry(emailToSocket: map<string, SocketId>, socketToEmail: map<SocketId, string>)

  /** Both maps as the server starts. */
  const Empty := Registry(map[], map[])

  /** JavaScript truthiness of a string: only the empty string is falsy. */
  predicate Truthy(email: string) {
    email != ""
  }

  /** `m` and `m'` have the same entries at every key other than `k`. */
  ghost predicate AgreeExcept<K(!new), V>(m: map<K, V>, m': map<K, V>, k: K) {
    forall x :: x != k ==> (x in m <==> x in m') && (x in m ==> m[x] == m'[x])
  }

  /** Each map is the other read backwards. Nothing in the server maintains this. */
  ghost predicate Inverse(reg: Registry) {
    && (forall e :: e in reg.emailToSocket ==>
          reg.emailToSocket[e] in reg.socketToEmail && reg.socketToEmail[reg.emailToSocket[e]] == e)
    && (forall s :: s in reg.socketToEmail ==>
          reg.socketToEmail[s] in reg.emailToSocket && reg.emailToSocket[reg.socketToEmail[s]] == s)
  }

  /**
   * `room:join` from socket `s` with email `email`: both maps get their
   * entry, and every other entry stays, including earlier emails that
   * still point at `s` and an earlier email of `s`'s own.
   */
  function Join(reg: Registry, s: SocketId, email: string): (r: Registry)
    ensures email in r.emailToSocket && r.emailToSocket[email] == s
    ensures s in r.socketToEmail && r.socketToEmail[s] == email
    ensures r.emailToSocket.Keys == reg.emailToSocket.Keys + {email}
    ensures r.socketToEmail.Keys == reg.socketToEmail.Keys + {s}
    ensures AgreeExcept(r.emailToSocket, reg.emailToSocket, email)
    ensures AgreeExcept(r.socketToEmail, reg.socketToEmail, s)
  {
    Registry(reg.emailToSocket[email := s], reg.socketToEmail[s := email])
  }

  /**
   * `disconnect` of socket `s`: when `s` has a truthy email `e`, exactly the
   * entries at `s` and at `e` go, whichever socket `e` now points at;
   * otherwise (no entry, or the empty email) nothing changes.
   */
  function Leave(reg: Registry, s: SocketId): (r: Registry)
    ensures s in reg.socketToEmail && Truthy(reg.socketToEmail[s]) ==>
              && r.socketToEmail.Keys == reg.socketToEmail.Keys - {s}
              && r.emailToSocket.Keys == reg.emailToSocket.Keys - {reg.socketToEmail[s]}
              && AgreeExcept(r.socketToEmail, reg.socketToEmail, s)
              && AgreeExcept(r.emailToSocket, reg.emailToSocket, reg.socketToEmail[s])
    ensures !(s in reg.socketToEmail && Truthy(reg.socketToEmail[s])) ==> r == reg
    ensures s !in r.socketToEmail || !Truthy(r.socketToEmail[s])
  {
    if s in reg.socketToEmail && Truthy(reg.socketToEmail[s]) then
      var e := reg.socketToEmail[s];
      Registry(reg.emailToSocket - {e}, reg.socketToEmail - {s})
    else
      reg
  }

  /**
   * Starting from mutually inverse maps, a join keeps them inverse exactly
   * when neither the email nor the socket was already bound to something
   * else.
   */
  lemma JoinPreservesInverse(reg: Registry, s: SocketId, email: string)
    requires Inverse(reg)
    ensures Inverse(Join(reg, s, email)) <==>
              && (email in reg.emailToSocket ==> reg.emailToSocket[email] == s)
              && (s in reg.socketToEmail ==> reg.socketToEmail[s] == email)
  {
    var r := Join(reg, s, email);
    if email in reg.emailToSocket && reg.emailToSocket[email] != s {
      // The old socket of `email` still says `email`, but `email` now says `s`.
      var old_s := reg.emailToSocket[email];
      assert old_s in r.socketToEmail && r.socketToEmail[old_s] == email;
      assert r.emailToSocket[r.socketToEmail[old_s]] != old_s;
    } else if s in reg.socketToEmail && reg.socketToEmail[s] != email {
      // The old email of `s` still says `s`, but `s` now says `email`.
      var old_e := reg.socketToEmail[s];
      assert old_e in r.emailToSocket && r.emailToSocket[old_e] == s;
      assert r.socketToEmail[r.emailToSocket[old_e]] != old_e;
    }
  }

  /** A disconnect never breaks mutually inverse maps. */
  lemma LeavePreservesInverse(reg: Registry, s: SocketId)
    requires Inverse(reg)
    ensures Inverse(Leave(reg, s))
  {
    if s in reg.socketToEmail && Truthy(reg.socketToEmail[s]) {
      var r := Leave(reg, s);
      forall x | x in r.emailToSocket
        ensures r.emailToSocket[x] in r.socketToEmail && r.socketToEmail[r.emailToSocket[x]] == x
      {
        assert reg.socketToEmail[reg.emailToSocket[x]] == x;
      }
      forall y | y in r.socketToEmail
        ensures r.socketToEmail[y] in r.emailToSocket && r.emailToSocket[r.socketToEmail[y]] == y
      {
        assert reg.emailToSocket[reg.socketToEmail[y]] == y;
      }
    }
  }

  /** Disconnecting a socket that joined with a fresh, truthy email undoes the join. */
  lemma LeaveUndoesFreshJoin(reg: Registry, s: SocketId, email: string)
    requires email !in reg.emailToSocket && s !in reg.socketToEmail
    requires Truthy(email)
    ensures Leave(Join(reg, s, email), s) == reg
  {
    var r := Leave(Join(reg, s, email), s);
    assert r.emailToSocket == reg.emailToSocket;
    assert r.socketToEmail == reg.socketToEmail;
  }

  /** A socket that joined with the empty email is never cleared by its disconnect. */
  lemma EmptyEmailSurvivesLeave(reg: Registry, s: SocketId)
    ensures Leave(Join(reg, s, ""), s) == Join(reg, s, "")
    ensures "" in Leave(Join(reg, s, ""), s).emailToSocket
  {
  }

  /** A second disconnect of the same socket changes nothing. */
  lemma LeaveIdempotent(reg: Registry, s: SocketId)
    ensures Leave(Leave(reg, s), s) == Leave(reg, s)
  {
  }

  /**
   * The same email joins first from `s1`, then from `s2`. `s1` keeps its
   * stale entry; disconnecting `s1` then deletes the email's entry
   * although it points at `s2`, which stays registered under that email.
   */
  lemma DuplicateEmailDisconnectDropsNewer(reg: Registry, s1: SocketId, s2: SocketId, email: string)
    requires s1 != s2 && Truthy(email)
    ensures var joined := Join(Join(reg, s1, email), s2, email);
            && joined.socketToEmail[s1] == email && joined.emailToSocket[email] == s2
            && !Inverse(joined)
    ensures var left := Leave(Join(Join(reg, s1, email), s2, email), s1);
            && email !in left.emailToSocket
            && s2 in left.socketToEmail && left.socketToEmail[s2] == email
            && !Inverse(left)
  {
    var joined := Join(Join(reg, s1, email), s2, email);
    assert joined.socketToEmail[s1] == email;
    var left := Leave(joined, s1);
    assert s2 in left.socketToEmail && left.socketToEmail[s2] !in left.emailToSocket;
  }

  /**
   * Socket `s` joins under `e1`, then again under `e2`. The entry `e1 -> s`
   * stays, and disconnecting `s` removes only `e2`, leaving `e1` pointing at
   * a socket that has no entry any more.
   */
  lemma RejoinDisconnectLeavesDangling(reg: Registry, s: SocketId, e1: string, e2: string)
    requires e1 != e2 && Truthy(e2)
    ensures var joined := Join(Join(reg, s, e1), s, e2);
            && joined.emailToSocket[e1] == s && joined.socketToEmail[s] == e2
            && !Inverse(joined)
    ensures var left := Leave(Join(Join(reg, s, e1), s, e2), s);
            && e1 in left.emailToSocket && left.emailToSocket[e1] == s
            && e2 !in left.emailToSocket && s !in left.socketToEmail
            && !Inverse(left)
  {
    var joined := Join(Join(reg, s, e1), s, e2);
    assert joined.emailToSocket[e1] == s;
    var left := Leave(joined, s);
    assert e1 in left.emailToSocket && left.emailToSocket[e1] !in left.socketToEmail;
  }
}
