// Which gRPC port a microgrid may have (src/sim/microgrids.rs, check_port and
// next_free_port_in): one that no other microgrid claims and that is not reserved
// for the assets or dispatch server.
module MicrogridPorts {
  import opened Wrappers
  import Sets

  type Id = nat
  type Port = nat

  const DEFAULT_GRPC_PORT := 8800
  const LAST_PORT := 65535

  // The port each microgrid claims.
  type Claims = map<Id, Port>

  datatype PortClash = Microgrid(id: Id) | Reserved

  predicate ClaimedByOther(claims: Claims, id: Id, port: Port) {
    exists other :: other in claims && other != id && claims[other] == port
  }

  predicate Clashes(claims: Claims, reserved: set<Port>, id: Id, port: Port) {
    ClaimedByOther(claims, id, port) || port in reserved
  }

  // Names the microgrid with the lowest id that claims the port, if any does.
  method CheckPort(claims: Claims, reserved: set<Port>, id: Id, port: Port) returns (clash: Option<PortClash>)
    ensures clash.Some? <==> Clashes(claims, reserved, id, port)
    ensures clash.Some? && clash.value.Microgrid? ==>
      var other := clash.value.id;
      && other in claims && other != id && claims[other] == port
      && forall o | o in claims && o != id && claims[o] == port :: other <= o
    ensures clash == Some(Reserved) ==> !ClaimedByOther(claims, id, port) && port in reserved
  {
    var others := set o | o in claims && o != id && claims[o] == port;
    assert forall o | o in claims && o != id && claims[o] == port :: o in others;
    if others != {} {
      var lowest := Sets.Lowest(others);
      assert ClaimedByOther(claims, id, port);
      return Some(Microgrid(lowest));
    }
    clash := if port in reserved then Some(Reserved) else None;
  }

  // ------------------------------------------------------------- the next free one

  // Ten on, or the last port there is.
  function After(candidate: Port): Port { if candidate + 10 > LAST_PORT then LAST_PORT else candidate + 10 }

  // The first of the ports tried that is not taken; the last one if all are.
  function NextFree(taken: set<Port>, candidate: Port): (p: Port)
    requires candidate <= LAST_PORT
    ensures candidate <= p <= LAST_PORT
    decreases LAST_PORT - candidate
  {
    if candidate !in taken || candidate == LAST_PORT then candidate else NextFree(taken, After(candidate))
  }

  // One of the ports tried.
  predicate Tried(p: Port) { p == LAST_PORT || (DEFAULT_GRPC_PORT <= p < LAST_PORT && p % 10 == 0) }

  predicate Full(taken: set<Port>) { forall p: Port | p <= LAST_PORT && Tried(p) :: p in taken }

  lemma {:induction false} FreeUnlessFull(taken: set<Port>, candidate: Port)
    requires candidate <= LAST_PORT && Tried(candidate)
    requires forall p: Port | p < candidate && Tried(p) :: p in taken
    ensures var p := NextFree(taken, candidate);
            Tried(p) && (p in taken <==> Full(taken)) && (p in taken ==> p == LAST_PORT)
    ensures forall q: Port | q < NextFree(taken, candidate) && Tried(q) :: q in taken
    decreases LAST_PORT - candidate
  {
    if candidate in taken && candidate < LAST_PORT {
      forall p: Port | p < After(candidate) && Tried(p) ensures p in taken { NoneBetween(candidate, p); }
      FreeUnlessFull(taken, After(candidate));
    }
  }

  lemma NoneBetween(candidate: Port, p: Port)
    requires candidate < LAST_PORT && Tried(candidate) && p < After(candidate) && Tried(p)
    ensures p <= candidate
  {
  }

  // The port given to a microgrid that asks for none is the first of those tried
  // that is not taken; it is taken if and only if they all are.
  lemma NextFreeIsFree(taken: set<Port>)
    ensures NextFree(taken, DEFAULT_GRPC_PORT) in taken <==> Full(taken)
    ensures Full(taken) ==> NextFree(taken, DEFAULT_GRPC_PORT) == LAST_PORT
    ensures Tried(NextFree(taken, DEFAULT_GRPC_PORT))
    ensures forall q: Port | q < NextFree(taken, DEFAULT_GRPC_PORT) && Tried(q) :: q in taken
  {
    FreeUnlessFull(taken, DEFAULT_GRPC_PORT);
  }

  predicate Sorted(ports: seq<Port>) { forall i, j | 0 <= i < j < |ports| :: ports[i] <= ports[j] }

  function PortSet(ports: seq<Port>): set<Port> { set p | p in ports }

  // The walk over the ports in use, in order, that ends at the first gap.
  method NextFreePortIn(ports: seq<Port>) returns (candidate: Port)
    requires Sorted(ports) && forall p | p in ports :: p <= LAST_PORT
    ensures candidate == NextFree(PortSet(ports), DEFAULT_GRPC_PORT)
  {
    candidate := DEFAULT_GRPC_PORT;
    ghost var taken := PortSet(ports);
    var k := 0;
    while k < |ports|
      invariant k <= |ports| && candidate <= LAST_PORT
      invariant NextFree(taken, candidate) == NextFree(taken, DEFAULT_GRPC_PORT)
      invariant forall i | 0 <= i < k :: ports[i] < candidate || candidate == LAST_PORT
    {
      assert ports[k] in ports;
      if ports[k] == candidate {
        candidate := After(candidate);
      } else if ports[k] > candidate {
        assert candidate !in taken;
        return;
      }
      k := k + 1;
    }
    assert candidate !in taken || candidate == LAST_PORT;
  }
}
