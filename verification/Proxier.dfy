/** The proxier object: trackers, flags and applier joined by `sync` (internal/agent/nftables/proxier.go). */
module Proxier {
  import opened Wrappers
  import opened Objects
  import opened AgentState
  import opened Trackers
  import opened Nftables
  import opened Ruleset
  import opened Netlink

  class Proxier {
    const lib: Library
    const tableName: string
    const minSyncPeriod: int
    const applyRules: bool
    const gatewayTracker: GatewayChangeTracker
    const endpointTracker: EndpointsChangeTracker
    const applier: NetlinkApplier
    var gatewaysSynced: bool
    var endpointSlicesSynced: bool
    var syncPending: bool
    var lastSync: Option<int>
    /** The one-slot resync channel. */
    var token: bool

    constructor (lib: Library, tableName: string, minSyncPeriod: int, applyRules: bool, kernel: Kernel)
      ensures fresh(gatewayTracker) && fresh(endpointTracker) && fresh(applier)
      ensures this.lib == lib && this.tableName == tableName && this.minSyncPeriod == minSyncPeriod
      ensures this.applyRules == applyRules && applier.kernel == kernel
      ensures gatewayTracker.gateways == map[] && endpointTracker.slices == map[]
      ensures !gatewaysSynced && !endpointSlicesSynced && !syncPending && lastSync.None? && !token
    {
      this.lib, this.tableName, this.minSyncPeriod, this.applyRules := lib, tableName, minSyncPeriod, applyRules;
      gatewayTracker := new GatewayChangeTracker();
      endpointTracker := new EndpointsChangeTracker();
      applier := new NetlinkApplier(kernel);
      gatewaysSynced, endpointSlicesSynced, syncPending, lastSync, token := false, false, false, None, false;
    }

    /** Both informers have delivered their initial state. */
    predicate Ready()
      reads this
    {
      gatewaysSynced && endpointSlicesSynced
    }

    method RequestSync()
      modifies this`syncPending, this`token
      ensures syncPending && token
    {
      syncPending := true;
      token := true;
    }

    /** `OnGatewayAdd`, `OnGatewayUpdate` and `OnGatewayDelete`, which differ only in what they pass on. */
    method OnGateway(event: Event<Gateway>)
      modifies gatewayTracker, this`syncPending, this`token
      ensures gatewayTracker.gateways == GatewayEvent(lib, old(gatewayTracker.gateways), event)
      ensures syncPending && token
    {
      match event {
        case Added(g) => var _ := gatewayTracker.Update(lib, None, Some(g));
        case Updated(o, g) => var _ := gatewayTracker.Update(lib, Some(o), Some(g));
        case Deleted(g) => var _ := gatewayTracker.Update(lib, Some(g), None);
      }
      RequestSync();
    }

    /** `OnEndpointSliceAdd`, `OnEndpointSliceUpdate` and `OnEndpointSliceDelete`. */
    method OnEndpointSlice(event: Event<EndpointSlice>)
      modifies endpointTracker, this`syncPending, this`token
      ensures endpointTracker.slices == SliceStoreAfter(old(endpointTracker.slices), event)
      ensures syncPending && token
    {
      if event.Deleted? {
        var _ := endpointTracker.Update(Some(event.previous), true);
      } else {
        var _ := endpointTracker.Update(Some(event.current), false);
      }
      RequestSync();
    }

    method OnGatewaySynced()
      modifies this
      ensures gatewaysSynced && endpointSlicesSynced == old(endpointSlicesSynced) && lastSync == old(lastSync)
      ensures syncPending && token
    {
      gatewaysSynced := true;
      RequestSync();
    }

    method OnEndpointSlicesSynced()
      modifies this
      ensures endpointSlicesSynced && gatewaysSynced == old(gatewaysSynced) && lastSync == old(lastSync)
      ensures syncPending && token
    {
      endpointSlicesSynced := true;
      RequestSync();
    }

    /** The minimum period since the last sync is not over. */
    predicate TooEarly(now: int)
      reads this
    {
      minSyncPeriod > 0 && lastSync.Some? && now < lastSync.value + minSyncPeriod
    }

    /** The ruleset that the two trackers call for, when `store` holds the live Gateways. */
    ghost function Desired(store: map<NamespacedName, Gateway>): RulesetSpec
      requires GatewayStore(store)
      reads endpointTracker
    {
      Compile(lib, tableName, AllFrontends(lib, store), AllEndpoints(lib, endpointTracker.slices))
    }

    /** `desiredRulesetLocked`. */
    method DesiredRulesetLocked(ghost store: map<NamespacedName, Gateway>) returns (spec: RulesetSpec)
      requires TracksGateways(lib, gatewayTracker.gateways, store)
      ensures spec == Desired(store)
    {
      var frontends := gatewayTracker.Snapshot(lib, store);
      var endpoints := endpointTracker.Snapshot(lib);
      spec := DesiredRuleset(lib, tableName, frontends, endpoints);
    }

    /** Compile the two snapshots and install the result, if rules are to be applied at all. */
    method ApplyDesired(cancelled: nat -> bool, connFails: nat -> bool, ghost store: map<NamespacedName, Gateway>)
      returns (err: Option<ApplyError>)
      requires TracksGateways(lib, gatewayTracker.gateways, store)
      modifies applier
      ensures err.Some? || !applyRules ==> applier.kernel == old(applier.kernel)
      ensures !applyRules ==> err.None?
      ensures Build(Desired(store)).Ok? ==>
                && (err.None? && applyRules ==> applier.kernel == old(applier.kernel)[tableName := Build(Desired(store)).value])
                && ((forall i :: !cancelled(i) && !connFails(i)) ==> err.None?)
    {
      var ruleset := DesiredRulesetLocked(store);
      err := None;
      if applyRules {
        err := applier.Apply(ruleset, cancelled, connFails);
      }
    }

    /** The second half of `sync`: compile the two snapshots, install the result and take note of it. */
    method SyncNow(done: int, cancelled: nat -> bool, connFails: nat -> bool, ghost store: map<NamespacedName, Gateway>)
      returns (err: Option<ApplyError>)
      requires TracksGateways(lib, gatewayTracker.gateways, store)
      modifies this`lastSync, this`syncPending, applier
      ensures err.Some? ==>
                lastSync == old(lastSync) && syncPending == old(syncPending) && applier.kernel == old(applier.kernel)
      ensures err.None? ==> lastSync == Some(done) && !syncPending
      ensures !applyRules ==> err.None? && applier.kernel == old(applier.kernel)
      ensures Build(Desired(store)).Ok? && err.None? && applyRules
              ==> applier.kernel == old(applier.kernel)[tableName := Build(Desired(store)).value]
      ensures Build(Desired(store)).Ok? && (forall i :: !cancelled(i) && !connFails(i)) ==> err.None?
    {
      err := ApplyDesired(cancelled, connFails, store);
      if err.None? {
        lastSync := Some(done);
        syncPending := false;
      }
    }

    /**
     `sync`, entered at `now` and finishing at `done`. The ghost store is the live set of Gateways the
     tracked frontends stand for.
     */
    method Sync(now: int, done: int, cancelled: nat -> bool, connFails: nat -> bool, ghost store: map<NamespacedName, Gateway>)
      returns (delay: int, err: Option<ApplyError>)
      requires TracksGateways(lib, gatewayTracker.gateways, store)
      modifies this`lastSync, this`syncPending, applier
      ensures !Ready() ==> err.None? && delay == 0
      ensures Ready() && old(TooEarly(now)) ==>
                err.None? && if old(syncPending) then now + delay == old(lastSync).value + minSyncPeriod else delay == 0
      ensures !Ready() || old(TooEarly(now)) || err.Some? ==>
                lastSync == old(lastSync) && syncPending == old(syncPending) && applier.kernel == old(applier.kernel)
      ensures Ready() && !old(TooEarly(now)) ==> delay == 0
      ensures Ready() && !old(TooEarly(now)) && err.None? ==> lastSync == Some(done) && !syncPending
      ensures !applyRules ==> err.None? && applier.kernel == old(applier.kernel)
      ensures Build(Desired(store)).Ok? && Ready() && !old(TooEarly(now)) && err.None? && applyRules
              ==> applier.kernel == old(applier.kernel)[tableName := Build(Desired(store)).value]
      ensures Build(Desired(store)).Ok? && (forall i :: !cancelled(i) && !connFails(i)) ==> err.None?
    {
      if !gatewaysSynced || !endpointSlicesSynced {
        return 0, None;
      }
      if minSyncPeriod > 0 && lastSync.Some? {
        var remaining := minSyncPeriod - (now - lastSync.value);
        if remaining > 0 {
          if syncPending {
            return remaining, None;
          }
          return 0, None;
        }
      }
      err := SyncNow(done, cancelled, connFails, store);
      return 0, err;
    }
  }
}
