/** Refreshing the topology through a caller-owned provider. */
module Discovery {
  import opened Machine
  import opened Hosting
  import opened Topology
  import opened Ownership
  import opened Delivery
  import opened Events
  import opened RequestLists
  import opened Clients

  /** A provider descriptor with what its acquire callback will answer, counting the calls it
      receives. */
  class Provider {
    const addressable: bool
    const structSize: u32
    const flags: u32
    const hasAcquire: bool
    const hasRelease: bool
    const acquired: Status
    const topology: Option<TopologyView>
    var acquires: nat
    var releases: nat

    constructor (addressable: bool, structSize: u32, flags: u32, hasAcquire: bool, hasRelease: bool,
                 acquired: Status, topology: Option<TopologyView>)
      ensures this.addressable == addressable && this.structSize == structSize && this.flags == flags
      ensures this.hasAcquire == hasAcquire && this.hasRelease == hasRelease
      ensures this.acquired == acquired && this.topology == topology && acquires == 0 && releases == 0
    {
      this.addressable, this.structSize, this.flags := addressable, structSize, flags;
      this.hasAcquire, this.hasRelease := hasAcquire, hasRelease;
      this.acquired, this.topology, acquires, releases := acquired, topology, 0, 0;
    }

    /** The topology is valid for the library to read: a borrow is outstanding. */
    predicate Borrowed()
      reads this
    {
      acquires > releases
    }

    method Acquire() returns (status: Status, t: Option<TopologyView>)
      requires hasAcquire
      modifies this
      ensures status == acquired && t == topology && acquires == old(acquires) + 1 && releases == old(releases)
    {
      acquires := acquires + 1;
      status, t := acquired, topology;
    }

    /** Only an outstanding borrow may be released. */
    method Release()
      requires hasRelease && Borrowed()
      modifies this
      ensures releases == old(releases) + 1 && acquires == old(acquires)
    {
      releases := releases + 1;
    }

    /** The answer as a value. */
    function Offered(): Offer
      reads match topology { case None => {} case Some(t) => t.Bases() }
    {
      Offer(addressable, structSize, flags, hasAcquire, hasRelease, acquired,
            match topology case None => None case Some(t) => Some(t.Value()))
    }
  }

  /** `solana_delivery_client_refresh_topology`: one acquire once the descriptor is valid, and
      one release exactly when a topology was borrowed, whether or not it could be installed. */
  method RefreshTopology(client: Client, provider: Provider) returns (status: Status)
    requires client.Valid() && provider !in client.Owned() && provider.releases <= provider.acquires
    requires provider.topology.Some? ==> IsBacked(provider.topology.value.Value())
    modifies client.host, client.installed, client.installed.blocks, provider
    ensures client.Valid() && client.Others() == old(client.Others())
    ensures
      var r := Refresh(client.host.oracle, old(client.Abs()), old(provider.Offered()));
      status == r.status && client.Abs() == r.next
    ensures
      var called := provider.addressable && provider.structSize >= 32 && provider.flags == 0 && provider.hasAcquire;
      var borrowed := called && provider.acquired == Ok && provider.topology.Some?;
      && provider.acquires == old(provider.acquires) + (if called then 1 else 0)
      && provider.releases == old(provider.releases) + (if borrowed && provider.hasRelease then 1 else 0)
    ensures
      if status == Ok then
        && client.host.live == old(client.host.live) - old(client.installed.blocks) + client.installed.blocks + {null}
        && forall b :: b in client.installed.blocks ==> FreshOrNull(b)
      else
        client.host.live == old(client.host.live) && client.installed.blocks == old(client.installed.blocks)
  {
    hide Install, SlotIs, ListIs, RingContents, IsBacked;
    status := ProviderVerdict(provider.addressable, provider.structSize, provider.flags, provider.hasAcquire);
    if status != Ok {
      return;
    }
    var topology;
    status, topology := provider.Acquire();
    if status != Ok {
      return;
    }
    if topology == None {
      return InternalError;
    }
    status := client.InstallTopology(topology.value);
    if provider.hasRelease {
      provider.Release();
    }
  }
}
