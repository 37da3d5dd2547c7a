/**
 * The live-connection registry of the messenger: a process-wide map from a
 * user's id to the list of that user's open websocket connections
 * (backend/app_messanger/handlers/clients.go). The code takes no lock, so the
 * operations are modelled one at a time.
 */
module Registry {

  type UserId = nat

  /** Identity of a websocket connection handle (the `*websocket.Conn` pointer). */
  type ConnId = nat

  /** One open connection and the user it was opened for. */
  datatype Client = Client(conn: ConnId, user: UserId)

  type Entries = map<UserId, seq<Client>>

  /** No user is a key with an empty list: "has a key" means "has a connection". */
  ghost predicate NoEmptyEntry(m: Entries) {
    forall u :: u in m ==> m[u] != []
  }

  /** Every connection is filed under the user it belongs to. */
  ghost predicate FiledUnderOwner(m: Entries) {
    forall u, k :: u in m && 0 <= k < |m[u]| ==> m[u][k].user == u
  }

  /** The connections registered for `u`, empty when `u` is not a key. */
  function Connections(m: Entries, u: UserId): seq<Client> {
    if u in m then m[u] else []
  }

  ghost predicate HasConn(s: seq<Client>, conn: ConnId) {
    exists k :: 0 <= k < |s| && s[k].conn == conn
  }

  /**
   * `slices.IndexFunc` with the test `elem.Conn == this.Conn`: the index of
   * the first connection with handle `conn`, or -1 when there is none.
   */
  function IndexOfConn(s: seq<Client>, conn: ConnId): (i: int)
    ensures -1 <= i < |s|
    ensures i == -1 <==> !HasConn(s, conn)
    ensures 0 <= i ==> s[i].conn == conn && forall k :: 0 <= k < i ==> s[k].conn != conn
  {
    if |s| == 0 then -1
    else if s[0].conn == conn then 0
    else
      var j := IndexOfConn(s[1..], conn);
      assert forall k :: 1 <= k < |s| ==> s[k] == s[1..][k - 1];
      if j == -1 then -1 else j + 1
  }

  /** The map AddClient leaves behind. */
  function Added(m: Entries, c: Client): (r: Entries)
    ensures r.Keys == m.Keys + {c.user}
    ensures |r[c.user]| == |Connections(m, c.user)| + 1
    ensures r[c.user][..|Connections(m, c.user)|] == Connections(m, c.user)
    ensures r[c.user][|Connections(m, c.user)|] == c
    ensures forall u :: u in m && u != c.user ==> r[u] == m[u]
    ensures NoEmptyEntry(r) <== NoEmptyEntry(m)
    ensures FiledUnderOwner(r) <== FiledUnderOwner(m)
  {
    m[c.user := Connections(m, c.user) + [c]]
  }

  /**
   * When RemoveClient does not panic: a list of other than one element must
   * hold the connection, for otherwise IndexFunc yields -1 and
   * `slices.Delete(s, -1, 0)` panics.
   */
  ghost predicate CanRemove(m: Entries, c: Client) {
    c.user in m && |m[c.user]| != 1 ==> HasConn(m[c.user], c.conn)
  }

  /** The map RemoveClient leaves behind. */
  function Removed(m: Entries, c: Client): (r: Entries)
    requires CanRemove(m, c)
    ensures c.user !in m ==> r == m
    ensures c.user in m && |m[c.user]| == 1 ==> r == m - {c.user}
    ensures c.user in m && |m[c.user]| != 1 ==>
      c.user in r &&
      exists i :: 0 <= i < |m[c.user]| && m[c.user][i].conn == c.conn &&
        (forall k :: 0 <= k < i ==> m[c.user][k].conn != c.conn) &&
        r[c.user] == m[c.user][..i] + m[c.user][i + 1..]
    ensures forall u :: u != c.user ==> (u in r <==> u in m)
    ensures forall u :: u in m && u != c.user ==> r[u] == m[u]
    ensures NoEmptyEntry(r) <== NoEmptyEntry(m)
    ensures FiledUnderOwner(r) <== FiledUnderOwner(m)
  {
    if c.user !in m then m
    else if |m[c.user]| == 1 then m - {c.user}
    else
      var s := m[c.user];
      var i := IndexOfConn(s, c.conn);
      var rest := s[..i] + s[i + 1..];
      assert forall k :: 0 <= k < |rest| ==> rest[k] == s[if k < i then k else k + 1];
      m[c.user := rest]
  }

  /**
   * Two devices of one user: both are listed in the order they connected;
   * removing the first leaves only the second; removing the second as well
   * drops the user's key.
   */
  lemma TwoDevices(m: Entries, c1: Client, c2: Client)
    requires c1.user == c2.user && c1.user !in m
    requires c1.conn != c2.conn
    ensures Connections(Added(Added(m, c1), c2), c1.user) == [c1, c2]
    ensures CanRemove(Added(Added(m, c1), c2), c1)
    ensures Connections(Removed(Added(Added(m, c1), c2), c1), c1.user) == [c2]
    ensures CanRemove(Removed(Added(Added(m, c1), c2), c1), c2)
    ensures c1.user !in Removed(Removed(Added(Added(m, c1), c2), c1), c2)
  {
    var both := Added(Added(m, c1), c2);
    assert both[c1.user] == [c1, c2];
    assert both[c1.user][0].conn == c1.conn;
  }

  /**
   * Registering a connection that is not yet listed for its user and then
   * removing it again gives back the map it started from.
   */
  lemma {:induction false} AddThenRemove(m: Entries, c: Client)
    requires NoEmptyEntry(m)
    requires !HasConn(Connections(m, c.user), c.conn)
    ensures CanRemove(Added(m, c), c)
    ensures Removed(Added(m, c), c) == m
  {
    var s := Connections(m, c.user);
    var t := Added(m, c)[c.user];
    assert t == s + [c];
    if c.user in m {
      assert HasConn(t, c.conn) by { assert t[|s|].conn == c.conn; }
      var i := IndexOfConn(t, c.conn);
      assert i == |s|;
      assert t[..i] + t[i + 1..] == s;
      assert m[c.user := s] == m;
    } else {
      assert Added(m, c) - {c.user} == m;
    }
  }

  /**
   * The Go map, as an object: `entries` stands for the package variable
   * `clients`.
   */
  class Clients {
    var entries: Entries

    ghost predicate Valid()
      reads this
    {
      NoEmptyEntry(entries) && FiledUnderOwner(entries)
    }

    constructor ()
      ensures Valid() && entries == map[]
    {
      entries := map[];
    }

    /** Appends `c` to its user's list, creating the list when it is absent. */
    method AddClient(c: Client)
      requires Valid()
      modifies this
      ensures Valid()
      ensures entries == Added(old(entries), c)
    {
      if c.user in entries {
        entries := entries[c.user := entries[c.user] + [c]];
      } else {
        entries := entries[c.user := [c]];
      }
    }

    /**
     * Takes a connection out of its user's list: a one-element list is
     * dropped together with its key whatever connection it holds; from a
     * longer list the first connection with the same handle is deleted.
     */
    method RemoveClient(c: Client)
      requires Valid()
      requires CanRemove(entries, c)
      modifies this
      ensures Valid()
      ensures entries == Removed(old(entries), c)
    {
      if c.user !in entries {
        return;
      }
      var conns := entries[c.user];
      if |conns| == 1 {
        entries := entries - {c.user};
      } else {
        var i := IndexOfConn(conns, c.conn);
        entries := entries[c.user := conns[..i] + conns[i + 1..]];
      }
    }
  }
}
