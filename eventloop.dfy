/**
 * The registry over a whole run of server/index.js: socket.io hands the
 * server one event at a time, each tagged with the socket it arrived on,
 * and each handler runs to completion before the next event. A run is
 * therefore a sequence of steps, and the registry after it is the steps
 * applied in order.
 */
module EventLoop {
  import opened Signals
  import opened EmailRegistry

  /** Event `ev` arriving on socket `socket`. */
  datatype Step<S, X> = Step(socket: SocketId, ev: Inbound<S, X>)

  /** What one handled event does to the registry. */
  function Apply<S, X>(reg: Registry, st: Step<S, X>): (r: Registry)
    ensures st.ev.RoomJoin? ==> r == Join(reg, st.socket, st.ev.data.email)
    ensures st.ev.Disconnect? ==> r == Leave(reg, st.socket)
    ensures st.ev.IsRelay() ==> r == reg
  {
    match st.ev
    case RoomJoin(data) => Join(reg, st.socket, data.email)
    case Disconnect => Leave(reg, st.socket)
    case _ => reg
  }

  /** The registry after the steps of `run`, handled in order, starting from `reg`. */
  function Replay<S, X>(reg: Registry, run: seq<Step<S, X>>): Registry
    decreases |run|
  {
    if run == [] then reg else Apply(Replay(reg, run[..|run| - 1]), run[|run| - 1])
  }

  /** The sockets that sent `room:join` somewhere in `run`. */
  function Joiners<S, X>(run: seq<Step<S, X>>): set<SocketId> {
    set i | 0 <= i < |run| && run[i].ev.RoomJoin? :: run[i].socket
  }

  /** The emails sent with `room:join` somewhere in `run`. */
  function JoinedEmails<S, X>(run: seq<Step<S, X>>): set<string> {
    set i | 0 <= i < |run| && run[i].ev.RoomJoin? :: run[i].ev.data.email
  }

  /** No two joins in `run` come from the same socket or carry the same email. */
  ghost predicate JoinsDistinct<S, X>(run: seq<Step<S, X>>) {
    forall i, j :: 0 <= i < j < |run| && run[i].ev.RoomJoin? && run[j].ev.RoomJoin? ==>
      run[i].socket != run[j].socket && run[i].ev.data.email != run[j].ev.data.email
  }

  /** Any number of relay events leaves the registry exactly as it was. */
  lemma {:induction false} RelaysKeepRegistry<S, X>(reg: Registry, run: seq<Step<S, X>>)
    requires forall i :: 0 <= i < |run| ==> run[i].ev.IsRelay()
    ensures Replay(reg, run) == reg
  {
    if run != [] {
      RelaysKeepRegistry(reg, run[..|run| - 1]);
    }
  }

  /**
   * Every entry present after a run was there before it or was written by a
   * join in it: each registered socket, and each socket an email points at
   * (dangling or not), is one that joined; each registered email is one
   * that was joined with.
   */
  lemma {:induction false} EntriesComeFromJoins<S, X>(reg: Registry, run: seq<Step<S, X>>)
    ensures Replay(reg, run).socketToEmail.Keys <= reg.socketToEmail.Keys + Joiners(run)
    ensures Replay(reg, run).emailToSocket.Keys <= reg.emailToSocket.Keys + JoinedEmails(run)
    ensures Replay(reg, run).emailToSocket.Values <= reg.emailToSocket.Values + Joiners(run)
    ensures Replay(reg, run).socketToEmail.Values <= reg.socketToEmail.Values + JoinedEmails(run)
  {
    if run != [] {
      var prefix, last := run[..|run| - 1], run[|run| - 1];
      EntriesComeFromJoins(reg, prefix);
      var before := Replay(reg, prefix);
      var after := Replay(reg, run);
      assert after == Apply(before, last);
      assert Joiners(prefix) <= Joiners(run) by {
        forall s | s in Joiners(prefix) ensures s in Joiners(run) {
          var i :| 0 <= i < |prefix| && prefix[i].ev.RoomJoin? && prefix[i].socket == s;
          assert run[i] == prefix[i];
        }
      }
      assert JoinedEmails(prefix) <= JoinedEmails(run) by {
        forall e | e in JoinedEmails(prefix) ensures e in JoinedEmails(run) {
          var i :| 0 <= i < |prefix| && prefix[i].ev.RoomJoin? && prefix[i].ev.data.email == e;
          assert run[i] == prefix[i];
        }
      }
      if last.ev.RoomJoin? {
        assert last.socket in Joiners(run) && last.ev.data.email in JoinedEmails(run);
        MapValuesAfterStore(before.emailToSocket, last.ev.data.email, last.socket);
        MapValuesAfterStore(before.socketToEmail, last.socket, last.ev.data.email);
      } else if last.ev.Disconnect? && last.socket in before.socketToEmail && Truthy(before.socketToEmail[last.socket]) {
        MapValuesAfterRemove(before.emailToSocket, before.socketToEmail[last.socket]);
        MapValuesAfterRemove(before.socketToEmail, last.socket);
      }
    }
  }

  /** Storing `v` at a key adds at most `v` to the values of a map. */
  lemma MapValuesAfterStore<K, V>(m: map<K, V>, k: K, v: V)
    ensures m[k := v].Values <= m.Values + {v}
  {
    forall x | x in m[k := v].Values ensures x in m.Values + {v} {
      var y :| y in m[k := v] && m[k := v][y] == x;
      if y != k {
        assert m[y] == x;
      }
    }
  }

  /** Removing a key adds no value to a map. */
  lemma MapValuesAfterRemove<K, V>(m: map<K, V>, k: K)
    ensures (m - {k}).Values <= m.Values
  {
    forall x | x in (m - {k}).Values ensures x in m.Values {
      var y :| y in (m - {k}) && (m - {k})[y] == x;
      assert m[y] == x;
    }
  }

  /**
   * In every run from the server's start in which no socket joins twice and
   * no email is joined twice, the two maps stay mutually inverse. (The
   * lemmas on duplicate and repeated joins show what goes wrong otherwise.)
   */
  lemma {:induction false} DistinctJoinsKeepInverse<S, X>(run: seq<Step<S, X>>)
    requires JoinsDistinct(run)
    ensures Inverse(Replay(Empty, run))
  {
    if run != [] {
      var prefix, last := run[..|run| - 1], run[|run| - 1];
      assert JoinsDistinct(prefix) by {
        forall i, j | 0 <= i < j < |prefix| && prefix[i].ev.RoomJoin? && prefix[j].ev.RoomJoin?
          ensures prefix[i].socket != prefix[j].socket && prefix[i].ev.data.email != prefix[j].ev.data.email
        {
          assert prefix[i] == run[i] && prefix[j] == run[j];
        }
      }
      DistinctJoinsKeepInverse(prefix);
      var before := Replay(Empty, prefix);
      assert Replay(Empty, run) == Apply(before, last);
      match last.ev {
        case RoomJoin(data) =>
          EntriesComeFromJoins(Empty, prefix);
          assert last.socket !in Joiners(prefix);
          assert data.email !in JoinedEmails(prefix);
          JoinPreservesInverse(before, last.socket, data.email);
        case Disconnect =>
          LeavePreservesInverse(before, last.socket);
        case _ =>
      }
    }
  }
}
