/**
 The bus of cmd/go-iroh-custom-transport one call at a time, on the heap: the maps it keeps by
 address and by name, and the buffers. A queued datagram owns a copy of the caller's buffer, so the
 caller may reuse the buffer as soon as send returns.
 */
module BusBuffers {
  import opened Common
  import opened Bus

  /** "go-iroh" */
  const TRANSPORT_ID: nat := 0x676f2d69726f68

  datatype Address = Address(transport: nat, name: string)

  /** iroh.CustomDatagram, whose Data is a slice of some buffer. */
  datatype Packet = Packet(remote: Address, local: Address, data: array<byte>)

  /** What a packet says, bytes and all. */
  datatype Content = Content(remote: Address, local: Address, data: Bytes)

  ghost function Read(d: Packet): Content
    reads d.data
  {
    Content(d.remote, d.local, d.data[..])
  }

  ghost function View(q: seq<Packet>): (c: seq<Content>)
    reads set k | 0 <= k < |q| :: q[k].data
  {
    if q == [] then [] else View(q[..|q| - 1]) + [Read(q[|q| - 1])]
  }

  lemma {:induction false} ViewFront(q: seq<Packet>)
    requires q != []
    ensures View(q) == [Read(q[0])] + View(q[1..])
  {
    var n := |q| - 1;
    if n > 0 {
      ViewFront(q[..n]);
      assert q[1..][..n - 1] == q[..n][1..];
    }
  }

  /** append([]byte(nil), data...) */
  method Copied(data: array<byte>) returns (copied: array<byte>)
    ensures fresh(copied) && copied[..] == data[..]
  {
    copied := new byte[data.Length];
    forall k | 0 <= k < data.Length {
      copied[k] := data[k];
    }
  }

  class Switch {
    var ports: map<Address, seq<Packet>>
    var delivered: map<string, nat>
    var dropped: nat
    ghost var owned: set<array<byte>>

    ghost predicate Valid()
      reads this
    {
      && (forall a | a in ports :: a.transport == TRANSPORT_ID && a.name in delivered)
      && (forall a | a in ports :: |ports[a]| <= QUEUE_CAPACITY)
      && (forall a, k | a in ports && 0 <= k < |ports[a]| :: ports[a][k].data in owned)
    }

    /** What is queued for an address. */
    ghost function Queued(a: Address): (c: seq<Content>)
      requires Valid() && a in ports
      reads this, owned
    {
      View(ports[a])
    }

    constructor ()
      ensures Valid() && ports == map[] && delivered == map[] && dropped == 0 && owned == {}
    {
      ports, delivered, dropped, owned := map[], map[], 0, {};
    }

    /** A port of that name, with an empty queue and its count at zero, even if there was one. */
    method Attach(name: string) returns (a: Address)
      requires Valid()
      modifies this
      ensures Valid() && a == Address(TRANSPORT_ID, name)
      ensures ports == old(ports)[a := []] && delivered == old(delivered)[name := 0]
      ensures dropped == old(dropped) && owned == old(owned)
    {
      a := Address(TRANSPORT_ID, name);
      ports := ports[a := []];
      delivered := delivered[name := 0];
    }

    method Send(from: Address, to: Address, data: array<byte>) returns (ok: bool)
      requires Valid()
      modifies this
      ensures Valid() && ports.Keys == old(ports.Keys)
      ensures ok <==> to in old(ports) && |old(ports)[to]| < QUEUE_CAPACITY
      ensures ok ==> Queued(to) == old(Queued(to)) + [Content(from, to, data[..])]
      ensures forall a | a in ports && !(ok && a == to) :: ports[a] == old(ports)[a]
      ensures delivered == if ok then old(delivered)[to.name := old(delivered)[to.name] + 1] else old(delivered)
      ensures dropped == old(dropped) + (if ok then 0 else 1)
      ensures old(owned) <= owned && fresh(owned - old(owned))
    {
      if to !in ports {
        dropped := dropped + 1;
        return false;
      }
      var copied := Copied(data);
      var d := Packet(from, to, copied);
      ok := |ports[to]| < QUEUE_CAPACITY;
      if ok {
        Enqueue(to, d);
      } else {
        dropped := dropped + 1;
      }
    }

    /** The queue takes the datagram, and the counter moves. */
    method Enqueue(to: Address, d: Packet)
      requires Valid() && to in ports && |ports[to]| < QUEUE_CAPACITY
      modifies this
      ensures Valid() && ports == old(ports)[to := old(ports)[to] + [d]]
      ensures Queued(to) == old(Queued(to)) + [Read(d)]
      ensures delivered == old(delivered)[to.name := old(delivered)[to.name] + 1]
      ensures dropped == old(dropped) && owned == old(owned) + {d.data}
    {
      var queue := ports[to] + [d];
      assert queue[..|queue| - 1] == ports[to];
      ports := ports[to := queue];
      delivered := delivered[to.name := delivered[to.name] + 1];
      owned := owned + {d.data};
    }

    /** Serve taking one datagram; `takes` is what recv says of it. */
    method ServeOne(a: Address, takes: bool) returns (d: Packet)
      requires Valid() && a in ports && ports[a] != []
      modifies this
      ensures Valid() && ports.Keys == old(ports.Keys)
      ensures old(Queued(a)) == [Read(d)] + Queued(a)
      ensures forall b | b in ports && b != a :: ports[b] == old(ports)[b]
      ensures delivered == old(delivered) && dropped == old(dropped) + (if takes then 0 else 1)
      ensures owned == old(owned)
    {
      d := ports[a][0];
      ViewFront(ports[a]);
      ports := ports[a := ports[a][1..]];
      if !takes {
        dropped := dropped + 1;
      }
    }
  }

  /** The endpoint's side: send a buffer, then fill it with the next packet. */
  method SendAndReuse(bus: Switch, from: Address, to: Address, data: array<byte>, next: byte) returns (ok: bool)
    requires bus.Valid() && data !in bus.owned
    modifies bus, data
    ensures bus.Valid() && bus.ports.Keys == old(bus.ports.Keys) && data !in bus.owned
    ensures forall a | a in bus.ports ::
              bus.Queued(a) == old(bus.Queued(a)) + (if ok && a == to then [Content(from, to, old(data[..]))] else [])
    ensures forall k | 0 <= k < data.Length :: data[k] == next
  {
    ok := bus.Send(from, to, data);
    forall k | 0 <= k < data.Length {
      data[k] := next;
    }
  }
}
