/** The pool as the source keeps it: connection objects shared by three lists
    and changed in place, each operation proved equal to its event. */
module PoolObjects {
  import P = ConnectionPool

  class Connection {
    var id: int
    var gen: nat
    var fd: int
    var since: int

    constructor ()
      ensures Value() == P.Connection(0, 0, -1, 0)
    {
      id, gen, fd, since := 0, 0, -1, 0;
    }

    ghost function Value(): P.Connection
      reads this
    {
      P.Connection(id, gen, fd, since)
    }

    method GetOneToUse(sockfd: int)
      modifies this
      ensures Value() == P.InUse(old(Value()), sockfd)
    {
      since := 0;
      gen := gen + 1;
      fd := sockfd;
    }

    method PutOneToFree()
      modifies this
      ensures Value() == old(Value()).(gen := old(gen) + 1)
    {
      gen := gen + 1;
    }
  }

  class Pool {
    var connections: seq<Connection>
    var free: seq<Connection>
    var recycle: seq<Connection>
    var total: int
    var freeCount: int
    var online: int
    const workers: nat
    const wait: int

    /** The connection stands at the place in the list that its id names. */
    ghost predicate Member(conn: Connection)
      reads this, conn
    {
      0 <= conn.id < |connections| && connections[conn.id] == conn
    }

    ghost predicate Members(s: seq<Connection>)
      reads this, s
    {
      forall k :: 0 <= k < |s| ==> Member(s[k])
    }

    ghost predicate Valid()
      reads this, connections, free, recycle
    {
      && (forall i :: 0 <= i < |connections| ==> connections[i].id == i)
      && Members(free)
      && Members(recycle)
    }

    ghost function Values(s: seq<Connection>): seq<P.Connection>
      reads s
    {
      seq(|s|, i requires 0 <= i < |s| reads s => s[i].Value())
    }

    ghost function Handles(s: seq<Connection>): seq<nat>
      reads this, connections, s
      requires Members(s)
    {
      seq(|s|, i requires 0 <= i < |s| && Member(s[i]) reads this, s => s[i].id)
    }

    ghost function View(): P.Pool
      reads this, connections, free, recycle
      requires Valid()
    {
      P.Pool(Values(connections), Handles(free), Handles(recycle), total, freeCount, online)
    }

    constructor (workers: nat, wait: int)
      ensures Valid() && View() == P.Init(workers)
      ensures forall k :: 0 <= k < |connections| ==> fresh(connections[k])
      ensures this.workers == workers && this.wait == wait
    {
      connections, free, recycle, total, freeCount, online := [], [], [], 0, 0, 0;
      this.workers, this.wait := workers, wait;
      new;
      CreateConnections();
    }

    method AddConnection(id: nat)
      requires Valid() && id == |connections|
      modifies this
      ensures Valid()
      ensures |connections| == id + 1 && connections[..id] == old(connections) && fresh(connections[id])
      ensures View() == old(View()).(
        connections := old(View()).connections + [P.Connection(id, 1, -1, 0)],
        free := old(View()).free + [id],
        freeCount := old(freeCount) + 1)
    {
      var conn := new Connection();
      conn.GetOneToUse(-1);
      conn.id := id;
      connections := connections + [conn];
      free := free + [conn];
      freeCount := freeCount + 1;
      assert Values(connections) == old(Values(connections)) + [conn.Value()];
      assert Handles(free) == old(Handles(free)) + [id];
      assert Handles(recycle) == old(Handles(recycle));
    }

    method CreateConnections()
      requires Valid() && total == |connections|
      modifies this
      ensures Valid() && View() == P.Grow(old(View()), workers)
      ensures old(connections) <= connections
      ensures forall k :: |old(connections)| <= k < |connections| ==> fresh(connections[k])
    {
      ghost var before := View();
      ghost var n := |connections|;
      for i := 0 to workers
        invariant Valid() && total == n && |connections| == n + i
        invariant View() == P.Grow(before, i).(total := n)
        invariant old(connections) <= connections
        invariant forall k :: n <= k < |connections| ==> fresh(connections[k])
      {
        P.GrowOne(before, i);
        AddConnection(i + total);
      }
      total := |connections|;
    }

    /** `ngx_get_connection`. */
    method GetConnection(sockfd: int) returns (conn: Connection)
      requires Valid() && total == |connections| && workers > 0
      modifies this, connections
      ensures Valid() && conn in connections
      ensures (View(), conn.id) == P.Get(old(View()), sockfd, workers)
    {
      while |free| == 0
        invariant Valid() && total == |connections|
        invariant old(connections) <= connections
        invariant forall k :: |old(connections)| <= k < |connections| ==> fresh(connections[k])
        invariant View() == old(View()) || (old(free) == [] && |free| > 0 && View() == P.Grow(old(View()), workers))
        decreases |free| == 0
      {
        CreateConnections();
      }
      conn := free[0];
      assert conn == connections[conn.id];
      TakeFirst(conn, sockfd);
    }

    method TakeFirst(conn: Connection, sockfd: int)
      requires Valid() && |free| > 0 && conn == free[0]
      modifies this, conn
      ensures Valid() && connections == old(connections) && conn.id == old(conn.id)
      ensures View() == old(View()).(
        connections := old(View()).connections[conn.id := P.InUse(old(View()).connections[conn.id], sockfd)],
        free := old(View()).free[1..],
        freeCount := old(freeCount) - 1,
        online := old(online) + 1)
    {
      free := free[1..];
      freeCount := freeCount - 1;
      conn.GetOneToUse(sockfd);
      online := online + 1;
      assert Values(connections) == old(Values(connections))[conn.id := conn.Value()];
      assert Handles(free) == old(Handles(free))[1..];
      assert Handles(recycle) == old(Handles(recycle));
    }

    /** `ngx_free_connection`. */
    method FreeConnection(conn: Connection)
      requires Valid() && Member(conn)
      modifies this, conn
      ensures Valid() && connections == old(connections) && recycle == old(recycle) && conn.id == old(conn.id)
      ensures var was := old(View()).connections[conn.id];
        View() == old(View()).(
          connections := old(View()).connections[conn.id := was.(gen := was.gen + 1)],
          free := old(View()).free + [conn.id],
          freeCount := old(freeCount) + 1)
    {
      conn.PutOneToFree();
      free := free + [conn];
      freeCount := freeCount + 1;
      assert Values(connections) == old(Values(connections))[conn.id := conn.Value()];
      assert Handles(free) == old(Handles(free)) + [conn.id];
      assert Handles(recycle) == old(Handles(recycle));
    }

    /** `inRecyConnectQueue`. */
    method InRecycleQueue(conn: Connection, now: int)
      requires Valid() && Member(conn)
      modifies this, conn
      ensures Valid() && connections == old(connections) && conn.id == old(conn.id)
      ensures View() == P.Retire(old(View()), conn.id, now)
    {
      for i := 0 to |recycle|
        invariant forall k :: 0 <= k < i ==> recycle[k].id != conn.id
      {
        if recycle[i].id == conn.id {
          assert View().recycle[i] == conn.id;
          return;
        }
      }
      conn.since := now;
      conn.gen := conn.gen + 1;
      online := online - 1;
      recycle := recycle + [conn];
      assert Values(connections) == old(Values(connections))[conn.id := conn.Value()];
      assert Handles(free) == old(Handles(free));
      assert Handles(recycle) == old(Handles(recycle)) + [conn.id];
    }

    /** `ngx_close_connection`. */
    method CloseConnection(conn: Connection)
      requires Valid() && Member(conn)
      modifies this, conn
      ensures Valid() && connections == old(connections)
      ensures View() == P.Discard(old(View()), old(conn.id))
    {
      ghost var was := View();
      if conn.fd != -1 {
        conn.fd := -1;
      }
      assert Values(connections) == was.connections[conn.id := conn.Value()];
      assert Handles(free) == was.free;
      assert Handles(recycle) == was.recycle;
      FreeConnection(conn);
    }

    /** One pass of `ServerRecyConnectionThread`. */
    method RecycleRipe(now: int)
      requires Valid() && P.Inv(View())
      modifies this, connections
      ensures Valid() && connections == old(connections)
      ensures View() == P.Sweep(old(View()), now, wait)
    {
      ghost var was := View();
      ghost var done: seq<nat> := [];
      P.SweepStarts(was, now, wait);
      var i := 0;
      while i < |recycle|
        invariant Valid() && connections == old(connections)
        invariant P.Sweeping(was, View(), done, i, now, wait)
        decreases |recycle| - i
      {
        P.NextSwept(was, View(), done, i, now, wait);
        RipeHere(i, now);
        if recycle[i].since + wait <= now {
          P.MoveSwept(was, View(), done, i, now, wait);
          MoveToFree(i);
        } else {
          P.KeepSwept(was, View(), done, i, now, wait);
          i := i + 1;
        }
        done := done + [was.recycle[|done|]];
      }
      P.SweepEnds(was, View(), done, i, now, wait);
    }

    lemma RipeHere(i: nat, now: int)
      requires Valid() && i < |recycle|
      ensures P.Ripe(View(), View().recycle[i], now, wait) <==> recycle[i].since + wait <= now
    {
      assert Member(recycle[i]);
    }

    /** Frees the waiting connection at `i` and erases it from the list. */
    method MoveToFree(i: nat)
      requires Valid() && i < |recycle|
      modifies this, connections
      ensures Valid() && connections == old(connections) && |recycle| == old(|recycle|) - 1
      ensures View() == P.MovedToFree(old(View()), i)
    {
      var conn := recycle[i];
      assert Member(conn);
      FreeConnection(conn);
      ghost var h := Handles(recycle);
      recycle := recycle[..i] + recycle[i + 1..];
      assert Handles(recycle) == h[..i] + h[i + 1..];
    }
  }
}
