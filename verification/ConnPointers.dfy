/** The three counted connection pointers of a statement, as one thread sees
    them: `conn_ref`, `conn_unref`, `replace_conn` and the setters. */
module ConnPointers {

  class Connection {
    var refCount: int
    var freed: bool

    /** A new connection is counted once, for the pool. */
    constructor ()
      ensures refCount == 1 && !freed
    {
      refCount, freed := 1, false;
    }
  }

  method ConnRef(c: Connection?)
    modifies c
    ensures c != null ==> c.refCount == old(c.refCount) + 1 && c.freed == old(c.freed)
  {
    if c != null {
      c.refCount := c.refCount + 1;
    }
  }

  /** One reference fewer.  At zero the connection is freed; a count that was
      not positive to begin with is restored and nothing is freed. */
  method ConnUnref(c: Connection?) returns (didFree: bool)
    requires c != null ==> !c.freed
    modifies c
    ensures c == null ==> !didFree
    ensures c != null ==>
              && didFree == c.freed == (old(c.refCount) == 1)
              && c.refCount == if old(c.refCount) < 1 then old(c.refCount) else old(c.refCount) - 1
  {
    if c == null {
      return false;
    }
    var previous := c.refCount;
    c.refCount := previous - 1;
    if previous > 1 {
      return false;
    }
    if previous < 1 {
      c.refCount := c.refCount + 1;
      return false;
    }
    c.freed := true;
    return true;
  }

  class Statement {
    var conn: Connection?
    var resultConn: Connection?
    var streamingConn: Connection?

    constructor ()
      ensures conn == null && resultConn == null && streamingConn == null
    {
      conn, resultConn, streamingConn := null, null, null;
    }

    /** How many of the three pointers name a connection. */
    function Uses(c: Connection): nat
      reads this
    {
      (if conn == c then 1 else 0) + (if resultConn == c then 1 else 0) + (if streamingConn == c then 1 else 0)
    }

    /** The references to a connection that are not this statement's. */
    function Others(c: Connection): int
      reads this, c
    {
      c.refCount - Uses(c)
    }

    /** Every connection the statement names is among all, each is counted at
        least for this statement's pointers, and it is freed exactly when
        nothing counts it. */
    ghost predicate Sound(all: set<Connection>)
      reads this, all
    {
      && (conn != null ==> conn in all)
      && (resultConn != null ==> resultConn in all)
      && (streamingConn != null ==> streamingConn in all)
      && (forall c :: c in all ==> Others(c) >= 0 && (c.freed <==> c.refCount == 0))
    }

    /** The new pointer is counted before the old one is let go. */
    static method ReplaceConn(was: Connection?, now: Connection?) returns (r: Connection?)
      requires was != null ==> !was.freed
      requires was != now && was != null ==> was.refCount >= 1
      modifies was, now
      ensures r == now
      ensures was == now && was != null ==> was.refCount == old(was.refCount) && was.freed == old(was.freed)
      ensures was != now && now != null ==> now.refCount == old(now.refCount) + 1 && now.freed == old(now.freed)
      ensures was != now && was != null ==>
                was.refCount == old(was.refCount) - 1 && was.freed == (was.refCount == 0)
    {
      if was == now {
        return now;
      }
      ConnRef(now);
      var _ := ConnUnref(was);
      return now;
    }

    /** Points the statement at a live connection.  For every connection the
        references that are not this statement's stay what they were, so the
        count goes up for the new pointer and down for the one let go, and a
        connection is freed exactly when its last reference was this one. */
    method SetConn(c: Connection?, ghost all: set<Connection>)
      requires Sound(all) && (c != null ==> c in all && !c.freed)
      modifies this, all
      ensures Sound(all)
      ensures conn == c && resultConn == old(resultConn) && streamingConn == old(streamingConn)
      ensures forall d :: d in all ==> Others(d) == old(Others(d))
    {
      var was := conn;
      var r := ReplaceConn(was, c);
      conn := r;
      assert forall d :: d in all && d != was && d != c ==> d.refCount == old(d.refCount) && d.freed == old(d.freed);
      assert was != null ==> Others(was) == old(Others(was));
      assert c != null ==> Others(c) == old(Others(c));
    }

    method SetResultConn(c: Connection?, ghost all: set<Connection>)
      requires Sound(all) && (c != null ==> c in all && !c.freed)
      modifies this, all
      ensures Sound(all)
      ensures conn == old(conn) && resultConn == c && streamingConn == old(streamingConn)
      ensures forall d :: d in all ==> Others(d) == old(Others(d))
    {
      var was := resultConn;
      var r := ReplaceConn(was, c);
      resultConn := r;
      assert forall d :: d in all && d != was && d != c ==> d.refCount == old(d.refCount) && d.freed == old(d.freed);
      assert was != null ==> Others(was) == old(Others(was));
      assert c != null ==> Others(c) == old(Others(c));
    }

    method SetStreamingConn(c: Connection?, ghost all: set<Connection>)
      requires Sound(all) && (c != null ==> c in all && !c.freed)
      modifies this, all
      ensures Sound(all)
      ensures conn == old(conn) && resultConn == old(resultConn) && streamingConn == c
      ensures forall d :: d in all ==> Others(d) == old(Others(d))
    {
      var was := streamingConn;
      var r := ReplaceConn(was, c);
      streamingConn := r;
      assert forall d :: d in all && d != was && d != c ==> d.refCount == old(d.refCount) && d.freed == old(d.freed);
      assert was != null ==> Others(was) == old(Others(was));
      assert c != null ==> Others(c) == old(Others(c));
    }

    /** Lets go of all three: each connection keeps exactly the references of
        the other holders. */
    method ReleaseConns(ghost all: set<Connection>)
      requires Sound(all)
      modifies this, all
      ensures Sound(all) && conn == null && resultConn == null && streamingConn == null
      ensures forall d :: d in all ==> d.refCount == old(d.refCount) - old(Uses(d))
    {
      SetConn(null, all);
      SetResultConn(null, all);
      SetStreamingConn(null, all);
    }
  }
}
