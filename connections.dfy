/**
 * The connection set: the `socks` list with the listening socket first and
 * the `addresses` map of the accepted ones (dashboard_server.py:146-147,
 * 206-227), and the readiness events `select` reports on it.
 */
module Connections {
  import opened Processes
  import Ascii

  /** A peer address as `accept` returns it. */
  datatype Address = Address(host: string, port: int)

  datatype ConnSet = ConnSet(socks: seq<SockId>, addresses: map<SockId, Address>)

  /** What one readable socket yields in one pass over `select`'s result. */
  datatype Readiness =
    | Incoming(sock: SockId, address: Address)      // the listening socket: `accept` returned this pair
    | Received(sock: SockId, data: seq<Ascii.byte>)  // a client socket: `recv` returned `data`, empty at end of stream
    | RecvFailed(sock: SockId)                       // a client socket: `recv` raised `socket.error`

  /** No socket appears twice. */
  predicate NoDuplicates(s: seq<SockId>) {
    forall i, j :: 0 <= i < j < |s| ==> s[i] != s[j]
  }

  /** The sockets of a list, as a set. */
  function Elements(s: seq<SockId>): set<SockId> {
    set x | x in s
  }

  /**
   * The invariant the main loop keeps: the listening socket first, no socket
   * twice, and an address for exactly the sockets other than the listener.
   */
  predicate WellFormed(c: ConnSet, listener: SockId) {
    |c.socks| > 0 && c.socks[0] == listener && NoDuplicates(c.socks)
    && c.addresses.Keys == Elements(c.socks) - {listener}
  }

  /** `socks = [server]; addresses = {}`. */
  function Initial(listener: SockId): (c: ConnSet)
    ensures WellFormed(c, listener)
  {
    ConnSet([listener], map[])
  }

  /** The position of the first occurrence of `x` in `s`. */
  function IndexOf(s: seq<SockId>, x: SockId): (i: nat)
    requires x in s
    ensures i < |s| && s[i] == x && x !in s[..i]
  {
    if s[0] == x then 0
    else
      var j := IndexOf(s[1..], x);
      assert s[..j + 1] == [s[0]] + s[1..][..j];
      j + 1
  }

  /** `list.remove`: drops the first occurrence of `x` (an absent `x` raises `ValueError`). */
  function RemoveFirst(s: seq<SockId>, x: SockId): (r: seq<SockId>)
    requires x in s
    ensures |r| == |s| - 1
  {
    s[..IndexOf(s, x)] + s[IndexOf(s, x) + 1..]
  }

  /** Removing one position from a list without duplicates keeps it without duplicates and loses just that element. */
  lemma RemoveAt(s: seq<SockId>, i: int)
    requires NoDuplicates(s) && 0 <= i < |s|
    ensures NoDuplicates(s[..i] + s[i + 1..])
    ensures Elements(s[..i] + s[i + 1..]) == Elements(s) - {s[i]}
  {
    var r := s[..i] + s[i + 1..];
    assert forall k :: 0 <= k < |r| ==> r[k] == s[if k < i then k else k + 1];
    forall x ensures x in r <==> x in s && x != s[i] {
      if x in s && x != s[i] {
        var k :| 0 <= k < |s| && s[k] == x;
        assert r[if k < i then k else k - 1] == x;
      }
    }
  }

  /** Accepting: a socket not yet in `socks` is appended and its address recorded; otherwise nothing changes. */
  function Accepted(c: ConnSet, sock: SockId, address: Address): ConnSet {
    if sock in c.socks then c
    else ConnSet(c.socks + [sock], c.addresses[sock := address])
  }

  /** Closing: a socket still in `socks` is removed from it and from `addresses`. */
  function Dropped(c: ConnSet, sock: SockId): ConnSet
    requires sock in c.socks ==> sock in c.addresses
  {
    if sock in c.socks then ConnSet(RemoveFirst(c.socks, sock), c.addresses - {sock})
    else c
  }

  /** The effect of one readiness event on the connection set. */
  function Step(c: ConnSet, listener: SockId, e: Readiness): ConnSet
    requires WellFormed(c, listener)
    requires !e.Incoming? ==> e.sock != listener
  {
    match e
    case Incoming(sock, address) => Accepted(c, sock, address)
    case Received(sock, data) => if data == [] then Dropped(c, sock) else c
    case RecvFailed(sock) => Dropped(c, sock)
  }

  /** Events `select` can report in the read branch: never on the listening socket. */
  predicate FromSelect(ready: seq<Readiness>, listener: SockId) {
    forall i :: 0 <= i < |ready| && !ready[i].Incoming? ==> ready[i].sock != listener
  }

  /** The connection set after `ready` is handled in order. */
  function After(c: ConnSet, listener: SockId, ready: seq<Readiness>): (r: ConnSet)
    requires WellFormed(c, listener) && FromSelect(ready, listener)
    ensures WellFormed(r, listener)
    decreases |ready|
  {
    if ready == [] then c
    else
      var prev := After(c, listener, ready[..|ready| - 1]);
      var e := ready[|ready| - 1];
      StepWellFormed(prev, listener, e);
      Step(prev, listener, e)
  }

  /** Accepting keeps the invariant and records the address of a new socket. */
  lemma AcceptedWellFormed(c: ConnSet, listener: SockId, sock: SockId, address: Address)
    requires WellFormed(c, listener)
    ensures WellFormed(Accepted(c, sock, address), listener)
    ensures sock in Accepted(c, sock, address).socks
    ensures sock !in c.socks ==> Accepted(c, sock, address).addresses[sock] == address
    ensures Accepted(c, sock, address).socks[0] == listener
  {
    if sock !in c.socks {
      var r := Accepted(c, sock, address);
      assert Elements(r.socks) == Elements(c.socks) + {sock};
    }
  }

  /**
   * Closing a socket other than the listener keeps the invariant, removes it
   * from both `socks` and `addresses`, and keeps every other socket, its
   * address and the order of `socks`.
   */
  lemma DroppedWellFormed(c: ConnSet, listener: SockId, sock: SockId)
    requires WellFormed(c, listener) && sock != listener
    ensures WellFormed(Dropped(c, sock), listener)
    ensures sock !in Dropped(c, sock).socks && sock !in Dropped(c, sock).addresses
    ensures forall s :: s != sock ==> (s in Dropped(c, sock).socks <==> s in c.socks)
    ensures forall s :: s in Dropped(c, sock).addresses ==> Dropped(c, sock).addresses[s] == c.addresses[s]
    ensures sock in c.socks ==>
              var i := IndexOf(c.socks, sock); 0 < i && Dropped(c, sock).socks == c.socks[..i] + c.socks[i + 1..]
  {
    if sock in c.socks {
      var i := IndexOf(c.socks, sock);
      var r := Dropped(c, sock);
      assert r.socks == c.socks[..i] + c.socks[i + 1..];
      assert i != 0;
      RemoveAt(c.socks, i);
      assert Elements(r.socks) == Elements(c.socks) - {sock};
      assert r.socks[0] == listener by {
        assert r.socks[0] == c.socks[..i][0];
      }
      assert forall s :: s in r.socks <==> s in Elements(r.socks);
      assert forall s :: s in c.socks <==> s in Elements(c.socks);
    }
  }

  /** Every event keeps the invariant. */
  lemma StepWellFormed(c: ConnSet, listener: SockId, e: Readiness)
    requires WellFormed(c, listener)
    requires !e.Incoming? ==> e.sock != listener
    ensures WellFormed(Step(c, listener, e), listener)
  {
    match e
    case Incoming(sock, address) => AcceptedWellFormed(c, listener, sock, address);
    case Received(sock, data) => DroppedWellFormed(c, listener, sock);
    case RecvFailed(sock) => DroppedWellFormed(c, listener, sock);
  }

  /** Accepting a socket and then closing it restores the connection set. */
  lemma AcceptThenDrop(c: ConnSet, listener: SockId, sock: SockId, address: Address)
    requires WellFormed(c, listener) && sock != listener && sock !in c.socks
    ensures Dropped(Accepted(c, sock, address), sock) == c
  {
    var a := Accepted(c, sock, address);
    var r := Dropped(a, sock);
    var i := IndexOf(a.socks, sock);
    assert a.socks[..|c.socks|] == c.socks;
    assert i == |c.socks|;
    assert r.socks == c.socks;
    assert sock !in c.addresses;
    assert r.addresses == c.addresses;
  }

  /** One more event handled, as a loop over `ready` sees it. */
  lemma AfterStep(c: ConnSet, listener: SockId, ready: seq<Readiness>, i: nat)
    requires WellFormed(c, listener) && FromSelect(ready, listener) && i < |ready|
    ensures FromSelect(ready[..i], listener) && FromSelect(ready[..i + 1], listener)
    ensures ready[i].Incoming? || ready[i].sock != listener
    ensures After(c, listener, ready[..i + 1]) == Step(After(c, listener, ready[..i]), listener, ready[i])
  {
    assert ready[..i + 1][..i] == ready[..i];
  }

  /** Handling `a` and then `b` is handling `a + b`. */
  lemma {:induction false} AfterAppend(c: ConnSet, listener: SockId, a: seq<Readiness>, b: seq<Readiness>)
    requires WellFormed(c, listener) && FromSelect(a, listener) && FromSelect(b, listener)
    ensures FromSelect(a + b, listener)
    ensures After(c, listener, a + b) == After(After(c, listener, a), listener, b)
    decreases |b|
  {
    assert forall i :: 0 <= i < |a + b| ==> (a + b)[i] == if i < |a| then a[i] else b[i - |a|];
    if b == [] {
      assert a + b == a;
    } else {
      assert (a + b)[..|a + b| - 1] == a + b[..|b| - 1];
      AfterAppend(c, listener, a, b[..|b| - 1]);
    }
  }
}
