/** Duplicate-connection resolution. Every socket has two ends, and each end runs a
    handler that registers in its node's peer table once and removes its own slot
    when it exits. Handlers of any number of sockets and nodes interleave freely. */
module Connections {
  import opened Primitives
  import opened Ordering

  type PeerId = Bytes32

  /** The byte order of peer ids. */
  predicate Above(a: PeerId, b: PeerId) {
    a != b && LexLeq(b, a)
  }

  /** A socket; `expected` is the peer its dialer means to reach. */
  datatype Socket = Socket(id: nat, dialer: PeerId, acceptor: PeerId, expected: PeerId)

  /** One end of a socket. It also stands for the handler's ownership token, which
      is created once per handler. */
  datatype End = End(socket: Socket, outbound: bool) {
    function Local(): PeerId { if outbound then socket.dialer else socket.acceptor }

    function Remote(): PeerId { if outbound then socket.acceptor else socket.dialer }

    predicate Identified() { outbound ==> socket.expected == Remote() }

    predicate WinsTie() { if outbound then Above(Local(), Remote()) else Above(Remote(), Local()) }
  }

  type Table = map<PeerId, End>

  predicate Admits(t: Table, x: End) {
    x.Identified() && (x.Remote() in t ==> x.WinsTie())
  }

  function Admit(t: Table, x: End): Table {
    if Admits(t, x) then t[x.Remote() := x] else t
  }

  function Release(t: Table, x: End): Table {
    if x.Remote() in t && t[x.Remote()] == x then t - {x.Remote()} else t
  }

  // ------------------------------------------------------- one node's table --

  datatype RegisterError = PeerIdMismatch | DuplicateConnection

  class PeerTable {
    const localId: PeerId
    var peers: Table

    constructor (localId: PeerId)
      ensures this.localId == localId && peers == map[]
    {
      this.localId := localId;
      peers := map[];
    }

    /** The start of a handler: check the peer id, then claim the slot. */
    method Register(x: End) returns (r: Result<(), RegisterError>)
      requires x.Local() == localId
      modifies this
      ensures peers == Admit(old(peers), x)
      ensures r.Ok? <==>
              && (x.outbound ==> x.socket.expected == x.Remote())
              && (x.Remote() in old(peers) ==> Above(x.socket.dialer, x.socket.acceptor))
      ensures r.Ok? ==> x.Remote() in peers && peers[x.Remote()] == x
      ensures r == Err(PeerIdMismatch) <==> !x.Identified()
      ensures forall p :: p != x.Remote() ==>
                (p in peers <==> p in old(peers)) && (p in peers ==> peers[p] == old(peers)[p])
    {
      var remote := x.Remote();
      if x.outbound && x.socket.expected != remote {
        return Err(PeerIdMismatch);
      }
      var winsTie := if x.outbound then Above(localId, remote) else Above(remote, localId);
      if remote in peers {
        if !winsTie {
          return Err(DuplicateConnection);
        }
      }
      peers := peers[remote := x];
      return Ok(());
    }

    /** The end of a handler that registered. */
    method Unregister(x: End)
      requires x.Local() == localId
      modifies this
      ensures peers == Release(old(peers), x)
      ensures x.Remote() in peers ==> peers[x.Remote()] != x
      ensures forall p :: p in old(peers) && old(peers)[p] != x ==> p in peers && peers[p] == old(peers)[p]
    {
      var remote := x.Remote();
      if remote in peers {
        if peers[remote] == x {
          peers := peers - {remote};
        }
      }
    }
  }

  // --------------------------------------------------------- all the handlers --

  datatype State = State(tables: map<PeerId, Table>, live: set<End>, started: set<End>)

  datatype Event = Enter(end: End) | Exit(end: End)

  function TableOf(s: State, n: PeerId): Table {
    if n in s.tables then s.tables[n] else map[]
  }

  /** Who holds the slot for peer `r` at node `n`. */
  function Holder(s: State, n: PeerId, r: PeerId): Option<End> {
    if r in TableOf(s, n) then Some(TableOf(s, n)[r]) else None
  }

  function Next(s: State, ev: Event): State {
    var t := TableOf(s, ev.end.Local());
    match ev
    case Enter(x) =>
      State(s.tables[x.Local() := Admit(t, x)], if Admits(t, x) then s.live + {x} else s.live, s.started + {x})
    case Exit(x) =>
      State(s.tables[x.Local() := Release(t, x)], s.live - {x}, s.started)
  }

  /** A handler registers once, and exits once if it was admitted. */
  predicate Enabled(s: State, ev: Event) {
    match ev case Enter(x) => x !in s.started case Exit(x) => x in s.live
  }

  function Run(events: seq<Event>): State
    decreases |events|
  {
    if events == [] then State(map[], {}, {})
    else Next(Run(events[..|events| - 1]), events[|events| - 1])
  }

  /** An interleaving that can happen. */
  predicate Legal(events: seq<Event>)
    decreases |events|
  {
    events == [] || (Legal(events[..|events| - 1]) && Enabled(Run(events[..|events| - 1]), events[|events| - 1]))
  }

  // ------------------------------------------------------------- who wins ----

  /** Both ends of a socket decide the tie alike: it is won exactly by the sockets
      the higher id dialed. */
  lemma BothEndsDecideAlike(socket: Socket)
    ensures End(socket, true).WinsTie() <==> Above(socket.dialer, socket.acceptor)
    ensures End(socket, false).WinsTie() <==> Above(socket.dialer, socket.acceptor)
  {}

  /** Of two distinct peers exactly one is the higher, so a pair of crossing dials
      has exactly one winner. */
  lemma ExactlyOneDirectionWins(a: PeerId, b: PeerId)
    requires a != b
    ensures Above(a, b) <==> !Above(b, a)
  {
    LexTotal(a, b);
    if LexLeq(a, b) && LexLeq(b, a) { LexAntisymmetric(a, b); }
  }

  /** Which socket wins, in bytes: the one whose dialer has the larger byte where the two
      ids first differ. A socket from a node to itself never wins. */
  lemma WinsByFirstDifference(x: End)
    ensures x.WinsTie() <==>
            exists k: nat :: DifferFirstAt(x.socket.dialer, x.socket.acceptor, k)
                        && x.socket.dialer[k] > x.socket.acceptor[k]
  {
    var d, a := x.socket.dialer, x.socket.acceptor;
    if d != a {
      var k := FirstDifference(d, a);
      assert DifferFirstAt(a, d, k);
      LexByFirstDifference(a, d, k);
      forall j: nat | DifferFirstAt(d, a, j) ensures j == k { OneFirstDifference(d, a, j, k); }
    }
  }

  lemma OneFirstDifference(a: Bytes, b: Bytes, j: nat, k: nat)
    requires DifferFirstAt(a, b, j) && DifferFirstAt(a, b, k)
    ensures j == k
  {
    assert forall i :: 0 <= i < k ==> a[i] == a[..k][i] == b[..k][i] == b[i];
    assert forall i :: 0 <= i < j ==> a[i] == a[..j][i] == b[..j][i] == b[i];
  }

  // -------------------------------------------------------------- every run --

  /** Slots belong to live handlers, under the handler's own key. */
  ghost predicate Owned(s: State) {
    && (forall n, r :: Holder(s, n, r).Some? ==>
          var x := Holder(s, n, r).value; x in s.live && x.Local() == n && x.Remote() == r)
    && s.live <= s.started
  }

  /** The handlers alive after the events are those that entered and did not exit. */
  ghost predicate Recorded(s: State, events: seq<Event>) {
    && (forall x :: x in s.started <==> Enter(x) in events)
    && (forall x :: x in s.live ==> Exit(x) !in events)
    && (forall x :: Exit(x) in events ==> x in s.started)
  }

  lemma HolderAfter(s: State, ev: Event, n: PeerId, r: PeerId)
    requires Owned(s)
    ensures Holder(Next(s, ev), n, r) ==
            match ev
            case Enter(x) =>
              if x.Local() == n && x.Remote() == r && x.Identified() && (Holder(s, n, r).None? || x.WinsTie())
              then Some(x) else Holder(s, n, r)
            case Exit(x) =>
              if Holder(s, n, r) == Some(x) then None else Holder(s, n, r)
  {
    assert Holder(s, n, r).Some? ==> Holder(s, n, r).value.Local() == n && Holder(s, n, r).value.Remote() == r;
  }

  lemma OwnedStep(s: State, ev: Event)
    requires Owned(s) && Enabled(s, ev)
    ensures Owned(Next(s, ev))
  {
    var s' := Next(s, ev);
    forall n, r | Holder(s', n, r).Some?
      ensures var x := Holder(s', n, r).value; x in s'.live && x.Local() == n && x.Remote() == r
    {
      HolderAfter(s, ev, n, r);
      assert Holder(s, n, r).Some? ==> Holder(s, n, r).value in s.live;
    }
  }

  lemma Unsnoc(events: seq<Event>)
    requires events != []
    ensures forall ev :: ev in events <==> ev in events[..|events| - 1] || ev == events[|events| - 1]
  {
    assert events == events[..|events| - 1] + [events[|events| - 1]];
  }

  lemma {:induction false} RunOwned(events: seq<Event>)
    requires Legal(events)
    ensures Owned(Run(events)) && Recorded(Run(events), events)
    decreases |events|
  {
    if events != [] {
      var before := events[..|events| - 1];
      RunOwned(before);
      Unsnoc(events);
      OwnedStep(Run(before), events[|events| - 1]);
    }
  }

  /** In every interleaving a slot belongs to a handler that registered for exactly
      that peer and has not exited. */
  lemma SlotBelongsToLiveHandler(events: seq<Event>, n: PeerId, r: PeerId)
    requires Legal(events) && Holder(Run(events), n, r).Some?
    ensures var x := Holder(Run(events), n, r).value;
            x.Local() == n && x.Remote() == r && Enter(x) in events && Exit(x) !in events
  {
    RunOwned(events);
  }

  /** An exiting handler clears its own slot if it still holds it, and no other. */
  lemma ExitRemovesOnlyOwnSlot(events: seq<Event>, x: End, n: PeerId, r: PeerId)
    requires Legal(events + [Exit(x)])
    ensures Holder(Run(events + [Exit(x)]), n, r) ==
            if Holder(Run(events), n, r) == Some(x) then None else Holder(Run(events), n, r)
  {
    var all := events + [Exit(x)];
    assert all[..|all| - 1] == events;
    RunOwned(events);
    HolderAfter(Run(events), Exit(x), n, r);
  }

  // ------------------------------------------------------- the surviving socket --

  predicate Winner(x: End, n: PeerId, r: PeerId) {
    x.Local() == n && x.Remote() == r && x.Identified() && x.WinsTie()
  }

  /** The last tie-winning end that registered for a slot. */
  function LastWinner(events: seq<Event>, n: PeerId, r: PeerId): Option<End>
    decreases |events|
  {
    if events == [] then None
    else
      match events[|events| - 1]
      case Enter(x) => if Winner(x, n, r) then Some(x) else LastWinner(events[..|events| - 1], n, r)
      case Exit(_) => LastWinner(events[..|events| - 1], n, r)
  }

  /** In every interleaving the last winner holds its slot for as long as it is up:
      no losing socket takes the slot, no other handler's exit clears it. */
  lemma {:induction false} LastWinnerHolds(events: seq<Event>, n: PeerId, r: PeerId)
    requires Legal(events) && LastWinner(events, n, r).Some? && Exit(LastWinner(events, n, r).value) !in events
    ensures Holder(Run(events), n, r) == LastWinner(events, n, r)
    decreases |events|
  {
    var before, ev := events[..|events| - 1], events[|events| - 1];
    Unsnoc(events);
    RunOwned(before);
    HolderAfter(Run(before), ev, n, r);
    if !(ev.Enter? && Winner(ev.end, n, r)) {
      LastWinnerHolds(before, n, r);
    }
  }

  lemma {:induction false} LastWinnerEntered(events: seq<Event>, n: PeerId, r: PeerId)
    ensures LastWinner(events, n, r).Some? ==>
              Winner(LastWinner(events, n, r).value, n, r) && Enter(LastWinner(events, n, r).value) in events
    ensures (exists x :: Enter(x) in events && Winner(x, n, r)) ==> LastWinner(events, n, r).Some?
    decreases |events|
  {
    if events != [] {
      Unsnoc(events);
      LastWinnerEntered(events[..|events| - 1], n, r);
    }
  }

  lemma WinnerLosesSlot(s: State, ev: Event, x: End)
    requires Owned(s) && x.WinsTie() && Holder(s, x.Local(), x.Remote()) == Some(x)
    requires Holder(Next(s, ev), x.Local(), x.Remote()) != Some(x)
    ensures ev == Exit(x) || (ev.Enter? && ev.end != x && Winner(ev.end, x.Local(), x.Remote()))
  {
    HolderAfter(s, ev, x.Local(), x.Remote());
  }

  /** A slot held by a socket the higher id dialed changes hands only by that
      handler's own exit or by another such socket. */
  lemma {:induction false} WinnerKeepsSlot(events: seq<Event>, more: seq<Event>, x: End)
    requires Legal(events + more) && x.WinsTie() && Holder(Run(events), x.Local(), x.Remote()) == Some(x)
    requires Holder(Run(events + more), x.Local(), x.Remote()) != Some(x)
    ensures Exit(x) in more || exists y :: y != x && Enter(y) in more && Winner(y, x.Local(), x.Remote())
    decreases |more|
  {
    var all := events + more;
    assert more == [] ==> all == events;
    if more != [] {
      var most, ev := more[..|more| - 1], more[|more| - 1];
      assert all[..|all| - 1] == events + most && all[|all| - 1] == ev;
      Unsnoc(more);
      RunOwned(events + most);
      if Holder(Run(events + most), x.Local(), x.Remote()) != Some(x) {
        WinnerKeepsSlot(events, most, x);
      } else {
        WinnerLosesSlot(Run(events + most), ev, x);
      }
    }
  }

  /** Socket `c` was dialed by `hi` to reach `lo`. */
  predicate Dials(c: Socket, hi: PeerId, lo: PeerId) {
    c.dialer == hi && c.acceptor == lo && c.expected == lo
  }

  /** While the last winners are up, the two ends finish on one socket exactly when
      the same socket registered last at both. */
  lemma EndsAgreeExactly(events: seq<Event>, hi: PeerId, lo: PeerId)
    requires Legal(events)
    requires LastWinner(events, hi, lo).Some? && Exit(LastWinner(events, hi, lo).value) !in events
    requires LastWinner(events, lo, hi).Some? && Exit(LastWinner(events, lo, hi).value) !in events
    ensures Holder(Run(events), hi, lo).Some? && Holder(Run(events), lo, hi).Some?
    ensures Holder(Run(events), hi, lo).value.socket == Holder(Run(events), lo, hi).value.socket <==>
            LastWinner(events, hi, lo).value.socket == LastWinner(events, lo, hi).value.socket
  {
    LastWinnerHolds(events, hi, lo);
    LastWinnerHolds(events, lo, hi);
  }

  /** If the higher id's only socket registers at both ends and stays up, both ends
      finish on it, whatever the lower id dials and whenever its handlers exit. */
  lemma BothEndsConverge(events: seq<Event>, c: Socket, hi: PeerId, lo: PeerId)
    requires Legal(events) && Above(hi, lo) && Dials(c, hi, lo)
    requires forall outbound :: Enter(End(c, outbound)) in events && Exit(End(c, outbound)) !in events
    requires forall x :: Enter(x) in events && x.socket.dialer == hi && x.socket.acceptor == lo ==> x.socket == c
    ensures Holder(Run(events), hi, lo) == Some(End(c, true))
    ensures Holder(Run(events), lo, hi) == Some(End(c, false))
  {
    ExactlyOneDirectionWins(hi, lo);
    assert Enter(End(c, true)) in events && Enter(End(c, false)) in events;
    assert Winner(End(c, true), hi, lo) && Winner(End(c, false), lo, hi);
    LastWinnerEntered(events, hi, lo);
    LastWinnerEntered(events, lo, hi);
    OnlyWinner(LastWinner(events, hi, lo).value, c, true, hi, lo);
    OnlyWinner(LastWinner(events, lo, hi).value, c, false, lo, hi);
    LastWinnerHolds(events, hi, lo);
    LastWinnerHolds(events, lo, hi);
  }

  lemma OnlyWinner(x: End, c: Socket, outbound: bool, n: PeerId, r: PeerId)
    requires Winner(x, n, r) && Winner(End(c, outbound), n, r)
    requires x.socket.dialer == c.dialer && x.socket.acceptor == c.acceptor ==> x.socket == c
    ensures x == End(c, outbound)
  {
    if x.outbound != outbound { ExactlyOneDirectionWins(n, r); }
  }

  // ---------------------------------------------------------- the dial guard --

  /** A node dials a peer, never itself, only while no dial of its own to that peer is
      under way: the peer stays marked until the handler has returned. */
  ghost predicate DialFree(s: State, ev: Event) {
    ev.Enter? && ev.end.outbound ==>
      && ev.end.socket.expected != ev.end.Local()
      && forall y :: y in s.live && y.outbound && y.Local() == ev.end.Local() ==>
           y.socket.expected != ev.end.socket.expected
  }

  /** Every dial in the list respects the guard. */
  ghost predicate Guarded(events: seq<Event>)
    decreases |events|
  {
    events == [] || (Guarded(events[..|events| - 1]) && DialFree(Run(events[..|events| - 1]), events[|events| - 1]))
  }

  predicate SameDial(x: End, y: End) {
    x.outbound && y.outbound && x.Local() == y.Local() && x.socket.expected == y.socket.expected
  }

  /** No node has two dialed handlers to one peer up. */
  ghost predicate OneDialEach(s: State) {
    forall x, y :: x in s.live && y in s.live && SameDial(x, y) ==> x == y
  }

  lemma {:induction false} GuardedOneDial(events: seq<Event>)
    requires Guarded(events)
    ensures OneDialEach(Run(events))
    decreases |events|
  {
    if events != [] { GuardedOneDial(events[..|events| - 1]); }
  }

  /** A winner that registered and has not exited is up. */
  lemma {:induction false} WinnerIsLive(events: seq<Event>, x: End)
    requires Legal(events) && x.Identified() && x.WinsTie() && Enter(x) in events && Exit(x) !in events
    ensures x in Run(events).live
    decreases |events|
  {
    var before, ev := events[..|events| - 1], events[|events| - 1];
    Unsnoc(events);
    if ev != Enter(x) { WinnerIsLive(before, x); }
  }

  /** Under the guard the higher id has one socket up, and the two ends are on the same
      one exactly when the socket the lower id registered last is still up at its
      dialer. */
  lemma GuardedEndsAgreeExactly(events: seq<Event>, hi: PeerId, lo: PeerId)
    requires Legal(events) && Guarded(events) && Above(hi, lo)
    requires LastWinner(events, hi, lo).Some? && Exit(LastWinner(events, hi, lo).value) !in events
    requires LastWinner(events, lo, hi).Some? && Exit(LastWinner(events, lo, hi).value) !in events
    ensures Holder(Run(events), hi, lo).Some? && Holder(Run(events), lo, hi).Some?
    ensures var dialed := End(LastWinner(events, lo, hi).value.socket, true);
            Holder(Run(events), hi, lo).value.socket == Holder(Run(events), lo, hi).value.socket <==>
            dialed.Identified() && Enter(dialed) in events && Exit(dialed) !in events
  {
    EndsAgreeExactly(events, hi, lo);
    LastWinnerEntered(events, hi, lo);
    LastWinnerEntered(events, lo, hi);
    ExactlyOneDirectionWins(hi, lo);
    var x, y := LastWinner(events, hi, lo).value, LastWinner(events, lo, hi).value;
    var dialed := End(y.socket, true);
    assert x.outbound && !y.outbound && x == End(x.socket, true);
    if dialed.Identified() && Enter(dialed) in events && Exit(dialed) !in events { OnlyDialUp(events, x, dialed); }
  }

  lemma OnlyDialUp(events: seq<Event>, x: End, dialed: End)
    requires Legal(events) && Guarded(events) && x.outbound && dialed.outbound && x.Local() == dialed.Local()
    requires x.Remote() == dialed.Remote() && x.Identified() && dialed.Identified() && x.WinsTie() && dialed.WinsTie()
    requires Enter(x) in events && Exit(x) !in events && Enter(dialed) in events && Exit(dialed) !in events
    ensures x == dialed
  {
    GuardedOneDial(events);
    WinnerIsLive(events, x);
    WinnerIsLive(events, dialed);
    assert SameDial(x, dialed);
  }

  /** The ends can differ even so: the higher id dials again once its first handler has
      exited, and at the lower id the handler that accepted the first socket is slower
      than the one that accepted the second. */
  lemma RedialSplits(c: Socket, d: Socket, hi: PeerId, lo: PeerId)
    requires Above(hi, lo) && Dials(c, hi, lo) && Dials(d, hi, lo) && c != d
    ensures var events := [Enter(End(c, true)), Exit(End(c, true)), Enter(End(d, true)),
                           Enter(End(d, false)), Enter(End(c, false))];
            && Legal(events) && Guarded(events)
            && Holder(Run(events), hi, lo) == Some(End(d, true))
            && Holder(Run(events), lo, hi) == Some(End(c, false))
  {
    var e1, e2, e3 := Enter(End(c, true)), Exit(End(c, true)), Enter(End(d, true));
    var e4, e5 := Enter(End(d, false)), Enter(End(c, false));
    RedialPrefix(c, d, hi, lo);
    var s3 := Run([e1, e2, e3]);
    StepOn([e1, e2, e3], e4);
    assert [e1, e2, e3] + [e4] == [e1, e2, e3, e4];
    var s4 := Next(s3, e4);
    StepOn([e1, e2, e3, e4], e5);
    assert [e1, e2, e3, e4] + [e5] == [e1, e2, e3, e4, e5];
    assert TableOf(s4, lo) == map[hi := End(d, false)];
  }

  lemma RedialPrefix(c: Socket, d: Socket, hi: PeerId, lo: PeerId)
    requires Above(hi, lo) && Dials(c, hi, lo) && Dials(d, hi, lo) && c != d
    ensures var events := [Enter(End(c, true)), Exit(End(c, true)), Enter(End(d, true))];
            && Legal(events) && Guarded(events)
            && Run(events).started == {End(c, true), End(d, true)}
            && TableOf(Run(events), hi) == map[lo := End(d, true)] && TableOf(Run(events), lo) == map[]
  {
    var e1, e2, e3 := Enter(End(c, true)), Exit(End(c, true)), Enter(End(d, true));
    StepOn([], e1);
    assert [] + [e1] == [e1];
    StepOn([e1], e2);
    assert [e1] + [e2] == [e1, e2];
    StepOn([e1, e2], e3);
    assert [e1, e2] + [e3] == [e1, e2, e3];
    var s1 := Run([e1]);
    assert TableOf(s1, hi) == map[lo := End(c, true)] && s1.live == {End(c, true)};
    var s2 := Run([e1, e2]);
    assert TableOf(s2, hi) == map[] && s2.live == {};
  }

  lemma StepOn(events: seq<Event>, ev: Event)
    ensures Run(events + [ev]) == Next(Run(events), ev)
    ensures Legal(events + [ev]) <==> Legal(events) && Enabled(Run(events), ev)
    ensures Guarded(events + [ev]) <==> Guarded(events) && DialFree(Run(events), ev)
  {
    var all := events + [ev];
    assert all[..|all| - 1] == events && all[|all| - 1] == ev;
  }
}
