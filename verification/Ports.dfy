/** Local test ports and the tokens that reserve them. */
module Ports {
  import opened Domain
  import opened Ranking
  import opened Sets

  type Port = nat

  ghost function ReliablyFree(first: Port, last: Port, binds: (nat, Port) -> bool, reserved: set<Port>): set<Port> {
    set p: Port | first <= p <= last && p !in reserved && AlwaysBinds(binds, p)
  }

  ghost predicate AlwaysBinds(binds: (nat, Port) -> bool, p: Port) {
    forall t :: binds(t, p)
  }

  /** The process-wide reservation set.  `binds(t, p)` is the operating system's
      answer to the `t`-th attempt to bind a port. */
  class PortPool {
    const first: Port
    const last: Port
    const binds: (nat, Port) -> bool
    var reserved: set<Port>
    var attempts: nat

    constructor (first: Port, last: Port, binds: (nat, Port) -> bool)
      ensures this.first == first && this.last == last && this.binds == binds && reserved == {}
    {
      this.first, this.last, this.binds := first, last, binds;
      reserved, attempts := {}, 0;
    }

    /** Takes a token for a port that nobody holds and that can be bound. */
    method TryReserve(p: Port) returns (token: bool)
      modifies this
      ensures token ==> p !in old(reserved) && reserved == old(reserved) + {p} && binds(old(attempts), p)
      ensures !token ==> reserved == old(reserved) && (p in reserved || !binds(old(attempts), p))
    {
      if p in reserved {
        return false;
      }
      token := binds(attempts, p);
      attempts := attempts + 1;
      if token {
        reserved := reserved + {p};
      }
    }

    /** Dropping tokens gives their ports back. */
    method Drop(ports: seq<Port>)
      modifies this`reserved
      ensures reserved == old(reserved) - Elements(ports)
    {
      for i := 0 to |ports|
        invariant reserved == old(reserved) - Elements(ports[..i])
      {
        reserved := reserved - {ports[i]};
        assert ports[..i + 1] == ports[..i] + [ports[i]];
      }
      assert ports[..|ports|] == ports;
    }

    method AllocatePort() returns (port: Option<Port>)
      modifies this
      ensures port.Some? ==> first <= port.value <= last && port.value !in old(reserved)
      ensures port.Some? ==> reserved == old(reserved) + {port.value}
      ensures port.None? ==> reserved == old(reserved) && ReliablyFree(first, last, binds, reserved) == {}
    {
      var p := first;
      while p <= last
        invariant reserved == old(reserved)
        invariant forall q :: q in ReliablyFree(first, last, binds, reserved) ==> p <= q
      {
        var token := TryReserve(p);
        if token {
          return Some(p);
        }
        p := p + 1;
      }
      return None;
    }

    /** Reserves `count` ports or none at all. */
    method AllocatePorts(count: nat) returns (r: Option<seq<Port>>)
      modifies this
      ensures r.Some? ==> |r.value| == count && Distinct(r.value) && Elements(r.value) !! old(reserved)
      ensures r.Some? ==> reserved == old(reserved) + Elements(r.value)
      ensures r.Some? ==> forall p :: p in r.value ==> first <= p <= last
      ensures r.None? ==> reserved == old(reserved)
      ensures |ReliablyFree(first, last, binds, old(reserved))| >= count ==> r.Some?
    {
      var ports: seq<Port> := [];
      var p := first;
      while p <= last && |ports| < count
        invariant |ports| <= count && Distinct(ports) && Elements(ports) !! old(reserved)
        invariant reserved == old(reserved) + Elements(ports)
        invariant forall q :: q in ports ==> first <= q < p && q <= last
        invariant forall q :: q in ReliablyFree(first, last, binds, old(reserved)) && q < p ==> q in ports
      {
        var token := TryReserve(p);
        if token {
          assert Elements(ports + [p]) == Elements(ports) + {p};
          ports := ports + [p];
        }
        p := p + 1;
      }
      if |ports| == count {
        return Some(ports);
      }
      ghost var free := ReliablyFree(first, last, binds, old(reserved));
      assert free <= Elements(ports);
      SubsetSize(free, Elements(ports));
      DistinctElements(ports);
      Drop(ports);
      return None;
    }
  }

  // ---- Interleaved allocations ----

  type Worker = nat

  datatype Token = Token(owner: Worker, port: Port)

  /** The reservation set, and the tokens that are alive in some worker. */
  datatype Reservations = Reservations(reserved: set<Port>, live: map<nat, Token>, minted: nat)

  /** The atomic sections of the reservation mutex: a lookup, an insertion, the drop of one token. */
  datatype Move =
    | Look(worker: Worker, port: Port)
    | Insert(worker: Worker, port: Port)
    | DropToken(token: nat)

  function Apply(r: Reservations, m: Move): Reservations {
    match m
    case Look(_, _) => r
    case Insert(w, p) =>
      if p in r.reserved then r
      else Reservations(r.reserved + {p}, r.live[r.minted := Token(w, p)], r.minted + 1)
    case DropToken(t) =>
      if t !in r.live then r
      else r.(reserved := r.reserved - {r.live[t].port}, live := r.live - {t})
  }

  function After(moves: seq<Move>): Reservations {
    if |moves| == 0 then Reservations({}, map[], 0) else Apply(After(moves[..|moves| - 1]), moves[|moves| - 1])
  }

  function LivePorts(r: Reservations): set<Port> {
    set t | t in r.live :: r.live[t].port
  }

  /** The reservation set is the set of ports of the live tokens, and no two of them share a port. */
  ghost predicate Exclusive(r: Reservations) {
    && r.reserved == LivePorts(r)
    && (forall s, t :: s in r.live && t in r.live && s != t ==> r.live[s].port != r.live[t].port)
    && (forall t :: t in r.live ==> t < r.minted)
  }

  lemma MoveKeepsExclusive(r: Reservations, m: Move)
    requires Exclusive(r)
    ensures Exclusive(Apply(r, m))
  {
    var after := Apply(r, m);
    match m
    case Look(_, _) =>
    case Insert(w, p) =>
      if p !in r.reserved {
        assert after.live[r.minted].port == p;
        assert forall t :: t in r.live ==> t in after.live && after.live[t] == r.live[t];
        assert forall t :: t in r.live ==> r.live[t].port in LivePorts(r);
        assert after.reserved == LivePorts(after);
      }
    case DropToken(k) =>
      if k in r.live {
        assert forall t :: t in after.live <==> t in r.live && t != k;
        assert forall t :: t in after.live ==> after.live[t] == r.live[t];
        assert after.reserved == LivePorts(after);
      }
  }

  /** However workers interleave, tokens and reservations agree. */
  lemma {:induction false} TokensAreExclusive(moves: seq<Move>)
    ensures Exclusive(After(moves))
  {
    if |moves| > 0 {
      TokensAreExclusive(moves[..|moves| - 1]);
      MoveKeepsExclusive(After(moves[..|moves| - 1]), moves[|moves| - 1]);
    }
  }

  function HeldBy(r: Reservations, w: Worker): set<Port> {
    set t | t in r.live && r.live[t].owner == w :: r.live[t].port
  }

  /** The worker whose token a move creates or drops, if any. */
  function Mover(r: Reservations, m: Move): Option<Worker> {
    match m
    case Look(_, _) => None
    case Insert(w, _) => Some(w)
    case DropToken(t) => if t in r.live then Some(r.live[t].owner) else None
  }

  /** No move touches a port that another worker holds. */
  lemma MovesKeepOthersPorts(moves: seq<Move>, m: Move, w: Worker)
    requires Mover(After(moves), m) != Some(w)
    ensures HeldBy(Apply(After(moves), m), w) == HeldBy(After(moves), w)
    ensures HeldBy(Apply(After(moves), m), w) <= Apply(After(moves), m).reserved
  {
    var before, after := After(moves), Apply(After(moves), m);
    TokensAreExclusive(moves);
    forall p
      ensures p in HeldBy(after, w) <==> p in HeldBy(before, w)
    {
      if p in HeldBy(before, w) {
        var t :| t in before.live && before.live[t].owner == w && before.live[t].port == p;
        assert t in after.live && after.live[t] == before.live[t];
      }
    }
    forall p | p in HeldBy(after, w)
      ensures p in after.reserved
    {
      MoveKeepsExclusive(before, m);
    }
  }
}
