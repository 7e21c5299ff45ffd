/**
 * The backend's `ConnectionManager`: for each session, the list of open
 * WebSockets that receive its live updates.  A socket is identified by a
 * number; whether sending to it fails is given as the set of sockets whose
 * send raises.
 */
module Connections {
  type SessionId = string
  type SocketId = nat

  type Table = map<SessionId, seq<SocketId>>

  /** `xs.remove(x)`: the first occurrence of `x` removed; an absent `x` (the `ValueError`) changes nothing. */
  function RemoveFirst(xs: seq<SocketId>, x: SocketId): (r: seq<SocketId>)
    ensures x !in xs ==> r == xs
    ensures x in xs ==> |r| == |xs| - 1 && multiset(r) == multiset(xs) - multiset{x}
  {
    if xs == [] then []
    else if xs[0] == x then
      assert xs == [x] + xs[1..];
      xs[1..]
    else
      assert xs == [xs[0]] + xs[1..];
      [xs[0]] + RemoveFirst(xs[1..], x)
  }

  /** The position of the first occurrence of a socket in a list. */
  function FirstIndex(xs: seq<SocketId>, x: SocketId): (i: nat)
    requires x in xs
    ensures i < |xs| && xs[i] == x && x !in xs[..i]
  {
    if xs[0] == x then 0
    else
      var j := FirstIndex(xs[1..], x);
      assert xs[..j + 1] == [xs[0]] + xs[1..][..j];
      j + 1
  }

  /** `remove` takes out the first occurrence and keeps the other sockets in their order. */
  lemma {:induction false} RemoveFirstSplits(xs: seq<SocketId>, x: SocketId)
    requires x in xs
    ensures RemoveFirst(xs, x) == xs[..FirstIndex(xs, x)] + xs[FirstIndex(xs, x) + 1..]
  {
    if xs[0] != x {
      var tail := xs[1..];
      RemoveFirstSplits(tail, x);
      var j := FirstIndex(tail, x);
      SliceAround(xs, j);
      ConsAssoc(xs[0], tail[..j], tail[j + 1..]);
    }
  }

  lemma SliceAround(xs: seq<SocketId>, j: nat)
    requires j + 1 < |xs|
    ensures xs[..j + 1] == [xs[0]] + xs[1..][..j] && xs[j + 2..] == xs[1..][j + 1..]
  {
  }

  lemma ConsAssoc(a: SocketId, b: seq<SocketId>, c: seq<SocketId>)
    ensures [a] + (b + c) == ([a] + b) + c
  {
  }

  /** The sockets whose send succeeded, in list order. */
  function Kept(xs: seq<SocketId>, failed: set<SocketId>): (r: seq<SocketId>)
    ensures |r| <= |xs|
    ensures forall s :: s in r <==> s in xs && s !in failed
  {
    if xs == [] then [] else (if xs[0] in failed then [] else [xs[0]]) + Kept(xs[1..], failed)
  }

  /** The sockets whose send raised, in list order: `send_message`'s `disconnected`. */
  function Dropped(xs: seq<SocketId>, failed: set<SocketId>): (r: seq<SocketId>)
    ensures forall s :: s in r ==> s in failed
  {
    if xs == [] then [] else (if xs[0] in failed then [xs[0]] else []) + Dropped(xs[1..], failed)
  }

  /** `for conn in ds: xs.remove(conn)`. */
  function RemoveEach(xs: seq<SocketId>, ds: seq<SocketId>): seq<SocketId>
    decreases ds
  {
    if ds == [] then xs else RemoveEach(RemoveFirst(xs, ds[0]), ds[1..])
  }

  /** Every list in the table is non-empty. */
  predicate NoEmptyLists(m: Table) {
    forall k :: k in m ==> m[k] != []
  }

  // ---------------------------------------------------------------------------
  // The effect of each operation on the table
  // ---------------------------------------------------------------------------

  /** `connect`: the socket is appended to the session's list, which is created when missing. */
  function AfterConnect(m: Table, sid: SessionId, ws: SocketId): Table {
    m[sid := (if sid in m then m[sid] else []) + [ws]]
  }

  /**
   * `disconnect`: an unknown session changes nothing; a socket missing from
   * a known session's list is the `ValueError` (`false`), the table unchanged;
   * otherwise its first occurrence is removed, and the session's entry with
   * it when the list is left empty.
   */
  function AfterDisconnect(m: Table, ws: SocketId, sid: SessionId): (r: (Table, bool))
    ensures !r.1 <==> sid in m && ws !in m[sid]
    ensures !r.1 || sid !in m ==> r.0 == m
    ensures r.1 && sid in m ==> (sid in r.0 <==> RemoveFirst(m[sid], ws) != [])
    ensures r.1 && sid in r.0 ==> r.0[sid] == RemoveFirst(m[sid], ws)
  {
    if sid !in m then (m, true)
    else if ws !in m[sid] then (m, false)
    else
      var l := RemoveFirst(m[sid], ws);
      if l == [] then (m - {sid}, true) else (m[sid := l], true)
  }

  /** `send_message`: the sockets whose send raised leave the session's list; the entry stays, even when emptied. */
  function AfterSend(m: Table, sid: SessionId, failed: set<SocketId>): Table {
    if sid in m then m[sid := Kept(m[sid], failed)] else m
  }

  // ---------------------------------------------------------------------------
  // Properties
  // ---------------------------------------------------------------------------

  /** Removing the raised sockets one by one, in list order, leaves exactly the ones whose send succeeded. */
  lemma {:induction false} RemoveDropped(xs: seq<SocketId>, failed: set<SocketId>)
    ensures RemoveEach(xs, Dropped(xs, failed)) == Kept(xs, failed)
  {
    if xs != [] {
      var x, rest := xs[0], xs[1..];
      assert xs == [x] + rest;
      RemoveDropped(rest, failed);
      if x in failed {
        assert Dropped(xs, failed) == [x] + Dropped(rest, failed);
      } else {
        assert Dropped(xs, failed) == Dropped(rest, failed);
        RemoveEachSkips(x, rest, Dropped(rest, failed));
      }
    }
  }

  /** Removals that never name `x` pass over it. */
  lemma {:induction false} RemoveEachSkips(x: SocketId, ys: seq<SocketId>, ds: seq<SocketId>)
    requires x !in ds
    ensures RemoveEach([x] + ys, ds) == [x] + RemoveEach(ys, ds)
    decreases ds
  {
    if ds != [] {
      assert ([x] + ys)[1..] == ys;
      assert RemoveFirst([x] + ys, ds[0]) == [x] + RemoveFirst(ys, ds[0]);
      RemoveEachSkips(x, RemoveFirst(ys, ds[0]), ds[1..]);
    }
  }

  /** `RemoveEach`, one removal at the end at a time, as the method's loop does them. */
  lemma {:induction false} RemoveEachSnoc(xs: seq<SocketId>, ds: seq<SocketId>, d: SocketId)
    ensures RemoveEach(xs, ds + [d]) == RemoveFirst(RemoveEach(xs, ds), d)
    decreases ds
  {
    if ds != [] {
      assert (ds + [d])[0] == ds[0] && (ds + [d])[1..] == ds[1..] + [d];
      RemoveEachSnoc(RemoveFirst(xs, ds[0]), ds[1..], d);
    } else {
      assert [] + [d] == [d];
    }
  }

  /** `RemoveEach` over one more element of `ds`. */
  lemma RemoveEachPrefix(xs: seq<SocketId>, ds: seq<SocketId>, j: nat)
    requires j < |ds|
    ensures RemoveEach(xs, ds[..j + 1]) == RemoveFirst(RemoveEach(xs, ds[..j]), ds[j])
  {
    assert ds[..j + 1] == ds[..j] + [ds[j]];
    RemoveEachSnoc(xs, ds[..j], ds[j]);
  }

  /** Sending the same message again to the same sockets drops nothing more. */
  lemma SendIdempotent(m: Table, sid: SessionId, failed: set<SocketId>)
    ensures AfterSend(AfterSend(m, sid, failed), sid, failed) == AfterSend(m, sid, failed)
  {
    if sid in m {
      KeptKept(m[sid], failed);
    }
  }

  lemma {:induction false} KeptKept(xs: seq<SocketId>, failed: set<SocketId>)
    ensures Kept(Kept(xs, failed), failed) == Kept(xs, failed)
  {
    if xs != [] {
      KeptKept(xs[1..], failed);
      var k := Kept(xs, failed);
      if xs[0] !in failed {
        assert k == [xs[0]] + Kept(xs[1..], failed);
        assert k[0] == xs[0] && k[1..] == Kept(xs[1..], failed);
        assert Kept(k, failed) == [k[0]] + Kept(k[1..], failed);
      } else {
        assert k == Kept(xs[1..], failed);
      }
    }
  }

  /** `connect` and `disconnect` keep every list in the table non-empty. */
  lemma ConnectKeepsLists(m: Table, sid: SessionId, ws: SocketId)
    requires NoEmptyLists(m)
    ensures NoEmptyLists(AfterConnect(m, sid, ws))
  {
  }

  lemma DisconnectKeepsLists(m: Table, ws: SocketId, sid: SessionId)
    requires NoEmptyLists(m)
    ensures NoEmptyLists(AfterDisconnect(m, ws, sid).0)
  {
  }

  /** A socket connected and then disconnected leaves the table as it was. */
  lemma ConnectThenDisconnect(m: Table, sid: SessionId, ws: SocketId)
    requires NoEmptyLists(m) && (sid in m ==> ws !in m[sid])
    ensures AfterDisconnect(AfterConnect(m, sid, ws), ws, sid) == (m, true)
  {
    if sid in m {
      ReconnectKnown(m, sid, ws);
    } else {
      var c := AfterConnect(m, sid, ws);
      assert c[sid] == [ws] && RemoveFirst([ws], ws) == [];
      assert c - {sid} == m;
    }
  }

  lemma ReconnectKnown(m: Table, sid: SessionId, ws: SocketId)
    requires sid in m && m[sid] != [] && ws !in m[sid]
    ensures AfterDisconnect(AfterConnect(m, sid, ws), ws, sid) == (m, true)
  {
    var c := AfterConnect(m, sid, ws);
    var before := m[sid];
    assert c[sid] == before + [ws];
    assert ws in c[sid] by {
      assert c[sid][|before|] == ws;
    }
    assert RemoveFirst(c[sid], ws) == before by {
      RemoveLast(before, ws);
    }
    assert c[sid := before] == m;
  }

  lemma {:induction false} RemoveLast(xs: seq<SocketId>, x: SocketId)
    requires x !in xs
    ensures RemoveFirst(xs + [x], x) == xs
  {
    if xs != [] {
      assert (xs + [x])[0] == xs[0] && (xs + [x])[1..] == xs[1..] + [x];
      RemoveLast(xs[1..], x);
      assert xs == [xs[0]] + xs[1..];
    } else {
      assert [] + [x] == [x];
    }
  }

  /**
   * A socket whose send raised is already gone from its session's list, so
   * its later `disconnect` hits the `ValueError`; and a session whose every
   * send raised keeps an empty list.
   */
  lemma DisconnectAfterFailedSend(m: Table, sid: SessionId, ws: SocketId, failed: set<SocketId>)
    requires sid in m && ws in failed
    ensures !AfterDisconnect(AfterSend(m, sid, failed), ws, sid).1
    ensures (forall s :: s in m[sid] ==> s in failed) ==> AfterSend(m, sid, failed)[sid] == []
  {
    var k := Kept(m[sid], failed);
    if k != [] {
      assert k[0] in k;
    }
  }

  class ConnectionManager {
    var connections: Table

    constructor()
      ensures connections == map[]
    {
      connections := map[];
    }

    method Connect(ws: SocketId, sid: SessionId)
      modifies this
      ensures connections == AfterConnect(old(connections), sid, ws)
    {
      var l: seq<SocketId> := if sid in connections then connections[sid] else [];
      connections := connections[sid := l + [ws]];
    }

    /** `disconnect`; `ok` is false where `list.remove` raises. */
    method Disconnect(ws: SocketId, sid: SessionId) returns (ok: bool)
      modifies this
      ensures (connections, ok) == AfterDisconnect(old(connections), ws, sid)
    {
      ok := true;
      if sid in connections {
        var l := connections[sid];
        if ws !in l {
          return false;
        }
        l := RemoveFirst(l, ws);
        if l == [] {
          connections := connections - {sid};
        } else {
          connections := connections[sid := l];
        }
      }
    }

    /**
     * `send_message`: one pass sends to every socket of the session and
     * collects the ones that raised; a second pass removes each of them.
     * `delivered` is the sockets the message reached, in order.
     */
    method SendMessage(sid: SessionId, failed: set<SocketId>) returns (delivered: seq<SocketId>)
      modifies this
      ensures connections == AfterSend(old(connections), sid, failed)
      ensures delivered == if sid in old(connections) then Kept(old(connections)[sid], failed) else []
    {
      delivered := [];
      if sid !in connections {
        return;
      }
      var list := connections[sid];
      var disconnected;
      disconnected, delivered := SendEach(list, failed);
      var current := RemoveDisconnected(list, disconnected);
      RemoveDropped(list, failed);
      connections := connections[sid := current];
    }
  }

  /** The send loop: the sockets of `list` whose send raised, and those it reached, each in list order. */
  method SendEach(list: seq<SocketId>, failed: set<SocketId>) returns (disconnected: seq<SocketId>, delivered: seq<SocketId>)
    ensures disconnected == Dropped(list, failed) && delivered == Kept(list, failed)
  {
    disconnected, delivered := [], [];
    var i := 0;
    while i < |list|
      invariant 0 <= i <= |list|
      invariant disconnected == Dropped(list[..i], failed)
      invariant delivered == Kept(list[..i], failed)
    {
      assert list[..i + 1] == list[..i] + [list[i]];
      DroppedSnoc(list[..i], list[i], failed);
      KeptSnoc(list[..i], list[i], failed);
      if list[i] in failed {
        disconnected := disconnected + [list[i]];
      } else {
        delivered := delivered + [list[i]];
      }
      i := i + 1;
    }
    assert list[..i] == list;
  }

  /** The clean-up loop: `list.remove(conn)` for each `conn` in turn. */
  method RemoveDisconnected(list: seq<SocketId>, ds: seq<SocketId>) returns (current: seq<SocketId>)
    ensures current == RemoveEach(list, ds)
  {
    current := list;
    var j := 0;
    while j < |ds|
      invariant 0 <= j <= |ds|
      invariant current == RemoveEach(list, ds[..j])
    {
      RemoveEachPrefix(list, ds, j);
      current := RemoveFirst(current, ds[j]);
      j := j + 1;
    }
    assert ds[..j] == ds;
  }

  /** `Dropped` extended by one socket at the end, as the send loop extends it. */
  lemma {:induction false} DroppedSnoc(xs: seq<SocketId>, x: SocketId, failed: set<SocketId>)
    ensures Dropped(xs + [x], failed) == Dropped(xs, failed) + (if x in failed then [x] else [])
  {
    if xs != [] {
      assert (xs + [x])[0] == xs[0] && (xs + [x])[1..] == xs[1..] + [x];
      DroppedSnoc(xs[1..], x, failed);
    } else {
      assert [] + [x] == [x];
    }
  }

  /** `Kept` extended by one socket at the end. */
  lemma {:induction false} KeptSnoc(xs: seq<SocketId>, x: SocketId, failed: set<SocketId>)
    ensures Kept(xs + [x], failed) == Kept(xs, failed) + (if x in failed then [] else [x])
  {
    if xs != [] {
      assert (xs + [x])[0] == xs[0] && (xs + [x])[1..] == xs[1..] + [x];
      KeptSnoc(xs[1..], x, failed);
    } else {
      assert [] + [x] == [x];
    }
  }
}
