/** The connection pool: include/net/asio/http/connection_pool.h. */
module Pool {
  import opened Prelude
  import opened HttpConnection

  /** A future in `connections_`: the connection it is for, and whether it is done. */
  datatype Slot<C> = Slot(conn: C, done: bool)

  /** The pool's three queues and its limits. Requests are named by numbers. */
  datatype Pool<C> = Pool(
    slots: seq<Slot<C>>, available: seq<C>, waiting: seq<nat>, limit: bool, max: nat)

  /** What `next` can do: hand out an idle connection, open one, or let the request wait. */
  datatype Choice<C> = Idle(conn: C, rest: seq<C>) | Open | Wait

  /** Drops connections that are no longer valid from the front of the available queue. */
  function DropStale<C(==)>(available: seq<C>, stale: set<C>): seq<C> {
    if available != [] && available[0] in stale then DropStale(available[1..], stale) else available
  }

  predicate CanOpen<C(==)>(p: Pool<C>) {
    !p.limit || |p.slots| < p.max
  }

  function Choose<C(==)>(p: Pool<C>, stale: set<C>): Choice<C> {
    var usable := DropStale(p.available, stale);
    if usable != [] then Idle(usable[0], usable[1..]) else if CanOpen(p) then Open else Wait
  }

  function Opened<C(==)>(p: Pool<C>, conn: C): Pool<C> {
    p.(slots := p.slots + [Slot(conn, false)])
  }

  function Enqueued<C(==)>(p: Pool<C>, request: nat): Pool<C> {
    p.(waiting := p.waiting + [request])
  }

  /** `release`: the connection goes to the longest waiting request, or becomes available. */
  function Released<C(==)>(p: Pool<C>, conn: C): (Pool<C>, Option<nat>) {
    if p.waiting == [] then (p.(available := p.available + [conn]), None)
    else (p.(waiting := p.waiting[1..]), Some(p.waiting[0]))
  }

  /** `f->done(conn)`: the connection of a slot has been made. */
  function MarkDone<C(==)>(slots: seq<Slot<C>>, conn: C): seq<Slot<C>> {
    seq(|slots|, i requires 0 <= i < |slots| => if slots[i].conn == conn then Slot(conn, true) else slots[i])
  }

  /** The slots that `remove` keeps. */
  function Kept<C(==)>(slots: seq<Slot<C>>, conn: C): seq<Slot<C>> {
    if slots == [] then []
    else (if slots[0] == Slot(conn, true) then [] else [slots[0]]) + Kept(slots[1..], conn)
  }

  function Removed<C(==)>(p: Pool<C>, stale: set<C>, conn: C): Pool<C> {
    p.(slots := Kept(p.slots, conn), available := DropStale(p.available, stale))
  }

  /** The number of futures that `remove` finds for a connection. */
  function MatchCount<C(==)>(slots: seq<Slot<C>>, conn: C): nat {
    if slots == [] then 0
    else (if slots[0] == Slot(conn, true) then 1 else 0) + MatchCount(slots[1..], conn)
  }

  /** Each connection has one future. */
  predicate Distinct<C(==)>(slots: seq<Slot<C>>) {
    forall i, j | 0 <= i < j < |slots| :: slots[i].conn != slots[j].conn
  }

  lemma {:induction false} KeptCounts<C>(slots: seq<Slot<C>>, conn: C)
    ensures |Kept(slots, conn)| + MatchCount(slots, conn) == |slots|
    ensures forall s :: s in Kept(slots, conn) <==> s in slots && s != Slot(conn, true)
    decreases |slots|
  {
    if slots != [] {
      KeptCounts(slots[1..], conn);
      assert slots == [slots[0]] + slots[1..];
    }
  }

  /** With one future for each connection, `remove` finds it if and only if it is done. */
  lemma {:induction false} MatchesOnceIffDone<C>(slots: seq<Slot<C>>, conn: C)
    requires Distinct(slots)
    ensures MatchCount(slots, conn) == if Slot(conn, true) in slots then 1 else 0
    ensures Distinct(Kept(slots, conn))
    decreases |slots|
  {
    if slots != [] {
      var rest := slots[1..];
      MatchesOnceIffDone(rest, conn);
      KeptCounts(rest, conn);
      assert slots == [slots[0]] + rest;
      forall s | s in rest ensures s.conn != slots[0].conn {
        var i :| 0 <= i < |rest| && rest[i] == s;
        assert s == slots[i + 1];
      }
      var kept := Kept(rest, conn);
      forall i | 0 <= i < |kept| ensures kept[i].conn != slots[0].conn {
        assert kept[i] in kept;
      }
    }
  }

  // ---- The vector of futures. ----

  /** What `remove` looks for: a null pointer, or the done future of the connection. */
  predicate Useless<C(==)>(f: Option<Slot<C>>, conn: C) {
    f == None || f == Some(Slot(conn, true))
  }

  /** The futures that are to stay, in order. */
  function Useful<C(==)>(v: seq<Option<Slot<C>>>, conn: C): seq<Option<Slot<C>>> {
    if v == [] then []
    else Useful(v[..|v| - 1], conn) + if Useless(v[|v| - 1], conn) then [] else [v[|v| - 1]]
  }

  function UselessCount<C(==)>(v: seq<Option<Slot<C>>>, conn: C): nat {
    if v == [] then 0
    else UselessCount(v[..|v| - 1], conn) + if Useless(v[|v| - 1], conn) then 1 else 0
  }

  /** `erase` of the single element at `w`. */
  function Erased<T>(v: seq<T>, w: nat): seq<T>
    requires w < |v|
  {
    v[..w] + v[w + 1..]
  }

  /**
   * `std::remove_if`: what stays is moved to the front, leaving null pointers behind. Erasing
   * the one element at the returned place then leaves just the useful futures, if and only if
   * there was one useless future: with none the place is the end, where nothing can be erased,
   * and with more useless ones are left.
   */
  method RemoveIf<C(==)>(v: seq<Option<Slot<C>>>, conn: C) returns (u: seq<Option<Slot<C>>>, w: nat)
    ensures |u| == |v| && w == |v| - UselessCount(v, conn)
    ensures u[..w] == Useful(v, conn) && forall i | w <= i < |u| :: Useless(u[i], conn)
    ensures w < |u| && Erased(u, w) == Useful(v, conn) <==> UselessCount(v, conn) == 1
  {
    u, w := v, 0;
    for i := 0 to |v|
      invariant |u| == |v| && w == i - UselessCount(v[..i], conn)
      invariant u[..w] == Useful(v[..i], conn)
      invariant forall j | i <= j < |v| :: u[j] == v[j]
      invariant forall j | w <= j < i :: Useless(u[j], conn)
    {
      var f := u[i];
      assert v[..i + 1][..i] == v[..i];
      if !Useless(f, conn) {
        ghost var front := u[..w];
        assert w == i || Useless(u[w], conn);
        if w != i {
          u := u[i := None];
          u := u[w := f];
        }
        assert u[..w + 1] == front + [f];
        w := w + 1;
      }
    }
    assert v[..|v|] == v;
    if w < |u| {
      assert |Erased(u, w)| == |u| - 1;
      assert w + 1 == |u| ==> Erased(u, w) == u[..w];
    }
  }

  /** The futures that are not null. */
  function Present<C>(v: seq<Option<Slot<C>>>): seq<Slot<C>> {
    if v == [] then [] else Present(v[..|v| - 1]) + if v[|v| - 1].Some? then [v[|v| - 1].value] else []
  }

  predicate NoNulls<C>(v: seq<Option<Slot<C>>>) {
    forall i | 0 <= i < |v| :: v[i].Some?
  }

  lemma {:induction false} PresentAll<C>(v: seq<Option<Slot<C>>>)
    requires NoNulls(v)
    ensures |Present(v)| == |v| && forall i | 0 <= i < |v| :: v[i] == Some(Present(v)[i])
    decreases |v|
  {
    if v != [] {
      PresentAll(v[..|v| - 1]);
    }
  }

  lemma {:induction false} KeptAppend<C>(slots: seq<Slot<C>>, s: Slot<C>, conn: C)
    ensures Kept(slots + [s], conn) == Kept(slots, conn) + if s == Slot(conn, true) then [] else [s]
    ensures MatchCount(slots + [s], conn) == MatchCount(slots, conn) + if s == Slot(conn, true) then 1 else 0
    decreases |slots|
  {
    if slots == [] {
      assert [] + [s] == [s] && [s][1..] == [];
    } else {
      assert (slots + [s])[1..] == slots[1..] + [s];
      KeptAppend(slots[1..], s, conn);
    }
  }

  /** Among futures that are all there, the useful ones are those that `remove` keeps. */
  lemma {:induction false} UsefulIsKept<C>(v: seq<Option<Slot<C>>>, conn: C)
    requires NoNulls(v)
    ensures NoNulls(Useful(v, conn)) && Present(Useful(v, conn)) == Kept(Present(v), conn)
    ensures UselessCount(v, conn) == MatchCount(Present(v), conn)
    decreases |v|
  {
    if v != [] {
      var init, last := v[..|v| - 1], v[|v| - 1].value;
      UsefulIsKept(init, conn);
      KeptAppend(Present(init), last, conn);
      UsefulLast(init, last, conn, v);
      hide Kept;
      hide MatchCount;
      hide Present;
      hide Useful;
      hide UselessCount;
      if last == Slot(conn, true) {
        assert Kept(Present(init), conn) + [] == Kept(Present(init), conn);
      } else {
        PresentAppend(Useful(init, conn), last);
      }
    }
  }

  lemma UsefulLast<C>(init: seq<Option<Slot<C>>>, last: Slot<C>, conn: C, v: seq<Option<Slot<C>>>)
    requires v != [] && init == v[..|v| - 1] && v[|v| - 1] == Some(last)
    ensures Present(v) == Present(init) + [last]
    ensures Useful(v, conn) ==
            if last == Slot(conn, true) then Useful(init, conn) else Useful(init, conn) + [Some(last)]
    ensures UselessCount(v, conn) == UselessCount(init, conn) + if last == Slot(conn, true) then 1 else 0
  {
    assert Useful(init, conn) + [] == Useful(init, conn);
  }

  lemma PresentAppend<C>(v: seq<Option<Slot<C>>>, s: Slot<C>)
    ensures Present(v + [Some(s)]) == Present(v) + [s]
  {
    assert (v + [Some(s)])[..|v|] == v;
  }

  lemma {:induction false} MarkDoneKeeps<C>(slots: seq<Slot<C>>, conn: C)
    ensures |MarkDone(slots, conn)| == |slots|
    ensures Distinct(slots) ==> Distinct(MarkDone(slots, conn))
    ensures forall c, d :: Slot(c, d) in MarkDone(slots, conn) <==>
              (if c == conn then d && (Slot(c, true) in slots || Slot(c, false) in slots) else Slot(c, d) in slots)
  {
    var m := MarkDone(slots, conn);
    forall c, d ensures Slot(c, d) in m <==>
        (if c == conn then d && (Slot(c, true) in slots || Slot(c, false) in slots) else Slot(c, d) in slots) {
      if Slot(c, d) in m {
        var i :| 0 <= i < |m| && m[i] == Slot(c, d);
        assert slots[i].conn == c && (slots[i] == Slot(c, true) || slots[i] == Slot(c, false));
      }
      if Slot(c, d) in slots {
        var i :| 0 <= i < |slots| && slots[i] == Slot(c, d);
        assert m[i] == if c == conn then Slot(c, true) else Slot(c, d);
      }
      if c == conn && d && Slot(c, false) in slots {
        var i :| 0 <= i < |slots| && slots[i] == Slot(c, false);
        assert m[i] == Slot(c, true);
      }
    }
  }

  /** What is left after dropping is a suffix, its first element is usable, and so on. */
  lemma {:induction false} DropStaleSuffix<C>(available: seq<C>, stale: set<C>) returns (n: nat)
    ensures n <= |available| && DropStale(available, stale) == available[n..]
    ensures forall i | 0 <= i < n :: available[i] in stale
    ensures n < |available| ==> available[n] !in stale
    decreases |available|
  {
    n := 0;
    if available != [] && available[0] in stale {
      var m := DropStaleSuffix(available[1..], stale);
      n := m + 1;
    }
  }

  datatype Grant = Ready(conn: Connection) | Connecting(conn: Connection) | Queued

  class ConnectionPool {
    var connections: seq<Option<Slot<Connection>>>
    var available: seq<Connection>
    var waiting: seq<nat>
    var limit: bool
    var max: nat
    /** An element was erased where there was none: nothing is defined any more. */
    var corrupted: bool

    ghost function State(): Pool<Connection>
      reads this
    {
      Pool(Present(connections), available, waiting, limit, max)
    }

    ghost function Stale(): set<Connection>
      reads this, available
    {
      set c | c in available && !c.IsValid()
    }

    /** Each connection has one future, and no future is null. */
    ghost predicate Valid()
      reads this
    {
      !corrupted && NoNulls(connections) && Distinct(Present(connections))
    }

    constructor ()
      ensures Valid() && State() == Pool([], [], [], true, 8)
    {
      connections, available, waiting, limit, max := [], [], [], true, 8;
      corrupted := false;
    }

    /** Starts a new connection and keeps its future; nothing arrives on it before it is made. */
    method Connect() returns (conn: Connection)
      modifies this`connections
      requires Valid()
      ensures Valid() && fresh(conn) && conn.IsValid() && conn.res == null
      ensures State() == Opened(old(State()), conn)
    {
      conn := new Connection();
      PresentAll(connections);
      PresentAppend(connections, Slot(conn, false));
      connections := connections + [Some(Slot(conn, false))];
    }

    method Next(request: nat) returns (grant: Grant)
      requires Valid()
      modifies this
      ensures Valid()
      ensures match Choose(old(State()), old(Stale()))
              case Idle(conn, rest) =>
                grant == Ready(conn) && conn.IsValid() && State() == old(State()).(available := rest)
              case Open =>
                && grant.Connecting? && fresh(grant.conn)
                && State() == Opened(old(State()).(available := []), grant.conn)
              case Wait =>
                grant == Queued && State() == Enqueued(old(State()).(available := []), request)
    {
      ghost var stale := Stale();
      while available != []
        invariant DropStale(available, stale) == DropStale(old(available), stale)
        invariant forall c <- available :: c in stale <==> !c.IsValid()
        invariant Valid() && State() == old(State()).(available := available)
        decreases |available|
      {
        var conn := available[0];
        available := available[1..];
        if conn.IsValid() {
          return Ready(conn);
        }
      }
      PresentAll(connections);
      if !limit || |connections| < max {
        var conn := Connect();
        grant := Connecting(conn);
      } else {
        waiting := waiting + [request];
        grant := Queued;
      }
    }

    method Release(conn: Connection) returns (request: Option<nat>)
      requires Valid()
      modifies this
      ensures Valid() && (State(), request) == Released(old(State()), conn)
    {
      if waiting == [] {
        available := available + [conn];
        request := None;
      } else {
        request := Some(waiting[0]);
        waiting := waiting[1..];
      }
    }

    /**
     * The future of a connection is done, and no other future changes. Its callbacks then write
     * its request, or release the connection: see PoolRuns.DoConnected.
     */
    method ConnectDone(conn: Connection)
      requires Valid()
      modifies this`connections
      ensures Valid() && State() == old(State()).(slots := MarkDone(old(State()).slots, conn))
      ensures |connections| == |old(connections)|
      ensures forall i | 0 <= i < |connections| ::
                connections[i] ==
                if old(connections[i]).value.conn == conn then Some(Slot(conn, true)) else old(connections[i])
      ensures forall s :: s in Present(connections) <==>
                if s.conn == conn then s.done && exists d :: Slot(conn, d) in old(Present(connections))
                else s in old(Present(connections))
    {
      PresentAll(connections);
      MarkDoneKeeps(Present(connections), conn);
      var v := connections;
      connections := seq(|v|, i requires 0 <= i < |v| =>
                                if v[i] == Some(Slot(conn, false)) then Some(Slot(conn, true)) else v[i]);
      PresentAll(connections);
      assert Present(connections) == MarkDone(Present(v), conn);
    }

    /**
     * The future of the connection is erased. If it is not done yet there is none to erase: the
     * code does not check that, and goes on with a corrupted vector.
     */
    method Remove(conn: Connection) returns (added: Option<Connection>)
      requires Valid()
      modifies this
      ensures corrupted <==> Slot(conn, true) !in old(State()).slots
      ensures !corrupted ==>
                var p := Removed(old(State()), old(Stale()), conn);
                && Valid()
                && (if p.waiting != [] && CanOpen(p)
                    then added.Some? && fresh(added.value) && State() == Opened(p, added.value)
                    else added == None && State() == p)
    {
      ghost var stale, slots := Stale(), Present(connections);
      MatchesOnceIffDone(slots, conn);
      UsefulIsKept(connections, conn);
      added := None;
      var futures, w := RemoveIf(connections, conn);
      if w == |futures| {
        corrupted := true;
        return;
      }
      connections := Erased(futures, w);
      while available != [] && !available[0].IsValid()
        invariant DropStale(available, stale) == DropStale(old(available), stale)
        invariant forall c <- available :: c in stale <==> !c.IsValid()
        invariant Valid() && State() == old(State()).(slots := Kept(slots, conn), available := available)
        decreases |available|
      {
        available := available[1..];
      }
      PresentAll(connections);
      if waiting != [] && (!limit || |connections| < max) {
        var replacement := Connect();
        added := Some(replacement);
      }
    }
  }
}
