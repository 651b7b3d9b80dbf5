/**
 The status record of an MCP provider and the route tables
 (butler/mcp_client/client.py, `_mark_server_*` and `_drop_server_routes`).
 */
module ProviderStatus {
  import opened PyText

  datatype Status = NotStarted | Warming | Starting | Reconnecting | Healthy | Degraded | Failed | Stopped

  datatype Record = Record(
    status: Status,
    healthy: bool,
    failures: nat,
    lastError: Option<string>,
    retryAt: bool,         // next_retry_at is set
    warmingSince: bool)    // warming_since is set

  const NEW_PROVIDER := Record(NotStarted, false, 0, None, false, false)

  predicate Transient(status: Status) {
    status.Warming? || status.Starting? || status.Reconnecting?
  }

  // ---------------------------------------------------------------------------
  // The four ways to change a record
  // ---------------------------------------------------------------------------

  function Transitioned(r: Record, status: Status, healthy: bool, error: Option<string>): Record {
    r.(status := status, healthy := healthy, lastError := error, warmingSince := Transient(status))
  }

  function MarkedHealthy(r: Record): Record {
    Record(Healthy, true, 0, None, false, false)
  }

  function MarkedStopped(r: Record): Record {
    r.(status := Stopped, healthy := false, retryAt := false, warmingSince := false)
  }

  function MarkedFailed(r: Record, error: string, threshold: nat, backoff: bool): Record {
    var failures := r.failures + 1;
    Record(if failures >= threshold then Failed else Degraded, false, failures, Some(error), backoff, false)
  }

  /** What a reader of the record may rely on at any moment. */
  predicate Consistent(r: Record, threshold: nat) {
    && (r.healthy <==> r.status == Healthy)
    && (r.status == Healthy ==> r.failures == 0 && r.lastError.None? && !r.retryAt)
    && (r.warmingSince <==> Transient(r.status))
    && (r.status == NotStarted ==> r.failures == 0)
    && (r.status == Starting ==> r.failures == 0)
    && (r.status == Reconnecting ==> r.failures > 0)
    && (r.status == Degraded ==> 0 < r.failures < threshold && r.lastError.Some?)
    && (r.status == Failed ==> r.failures > 0 && r.failures >= threshold && r.lastError.Some?)
  }

  // ---------------------------------------------------------------------------
  // Routes
  // ---------------------------------------------------------------------------

  datatype Route = Route(server: string, rawName: string)

  function KeptToolRoutes(routes: map<string, Route>, server: string): map<string, Route> {
    map name | name in routes && routes[name].server != server :: routes[name]
  }

  function Without(servers: seq<string>, server: string): (r: seq<string>)
    ensures forall x :: x in r <==> x in servers && x != server
  {
    if servers == [] then []
    else if servers[0] == server then Without(servers[1..], server)
    else [servers[0]] + Without(servers[1..], server)
  }

  function KeptResourceRoutes(routes: map<string, seq<string>>, server: string): map<string, seq<string>> {
    map uri | uri in routes && Without(routes[uri], server) != [] :: Without(routes[uri], server)
  }

  /** The shared part of the client: one record a provider, and what may be routed where. */
  class Client {
    var status: map<string, Record>
    var toolCached: bool
    var toolRoutes: map<string, Route>
    var resourceCached: bool
    var resourceRoutes: map<string, seq<string>>
    const threshold: nat
    const backoff: bool

    ghost predicate Valid()
      reads this
    {
      forall name :: name in status ==> Consistent(status[name], threshold)
    }

    constructor (servers: set<string>, threshold: nat, backoff: bool)
      ensures Valid() && this.threshold == threshold && this.backoff == backoff
      ensures status == map name | name in servers :: NEW_PROVIDER
    {
      this.threshold, this.backoff := threshold, backoff;
      status := map name | name in servers :: NEW_PROVIDER;
      toolCached, toolRoutes, resourceCached, resourceRoutes := false, map[], false, map[];
    }

    method MarkServerHealthy(name: string)
      requires Valid() && name in status
      modifies this`status
      ensures Valid() && status == old(status)[name := MarkedHealthy(old(status)[name])]
    {
      var item := status[name];
      status := status[name := item.(status := Healthy, healthy := true, failures := 0, lastError := None,
                                     retryAt := false, warmingSince := false)];
    }

    method MarkServerStopped(name: string)
      requires Valid() && name in status
      modifies this`status
      ensures Valid() && status == old(status)[name := MarkedStopped(old(status)[name])]
    {
      var item := status[name];
      status := status[name := item.(status := Stopped, healthy := false, retryAt := false, warmingSince := false)];
    }

    method MarkServerTransition(name: string, phase: Status, healthy: bool, error: Option<string>)
      requires Valid() && name in status
      modifies this`status
      ensures status == old(status)[name := Transitioned(old(status)[name], phase, healthy, error)]
      ensures Valid() <==> Consistent(Transitioned(old(status)[name], phase, healthy, error), threshold)
    {
      var item := status[name].(status := phase, healthy := healthy, lastError := error);
      if phase == Warming || phase == Starting || phase == Reconnecting {
        if !item.warmingSince {
          item := item.(warmingSince := true);
        }
      } else {
        item := item.(warmingSince := false);
      }
      status := status[name := item];
      assert name in status && status[name] == item;
    }

    method MarkServerFailed(name: string, error: string)
      requires Valid() && name in status
      modifies this
      ensures Valid() && status == old(status)[name := MarkedFailed(old(status)[name], error, threshold, backoff)]
      ensures toolRoutes == KeptToolRoutes(old(toolRoutes), name) && !toolCached
      ensures resourceRoutes == KeptResourceRoutes(old(resourceRoutes), name) && !resourceCached
    {
      var item := status[name];
      var count := item.failures + 1;
      status := status[name := item.(
        failures := count, healthy := false, lastError := Some(error),
        status := if count >= threshold then Failed else Degraded, retryAt := backoff, warmingSince := false)];
      DropServerRoutes(name);
    }

    method DropServerRoutes(name: string)
      modifies this`toolCached, this`toolRoutes, this`resourceCached, this`resourceRoutes
      ensures toolRoutes == KeptToolRoutes(old(toolRoutes), name) && !toolCached
      ensures resourceRoutes == KeptResourceRoutes(old(resourceRoutes), name) && !resourceCached
    {
      toolCached, resourceCached := false, false;
      toolRoutes := map exposed | exposed in toolRoutes && toolRoutes[exposed].server != name :: toolRoutes[exposed];
      var filtered := map uri | uri in resourceRoutes :: Without(resourceRoutes[uri], name);
      resourceRoutes := map uri | uri in filtered && filtered[uri] != [] :: filtered[uri];
    }
  }

  /** After a failure nothing is routed to the server, and no other server loses a route. */
  lemma FailedServerGetsNothing(tools: map<string, Route>, resources: map<string, seq<string>>, server: string)
    ensures forall name :: name in KeptToolRoutes(tools, server) <==> name in tools && tools[name].server != server
    ensures forall uri, other :: uri in KeptResourceRoutes(resources, server) && other in KeptResourceRoutes(resources, server)[uri]
                                 <==> uri in resources && other in resources[uri] && other != server
  {
    forall uri, other | uri in resources && other in resources[uri] && other != server
      ensures uri in KeptResourceRoutes(resources, server) && other in KeptResourceRoutes(resources, server)[uri]
    {
      assert other in Without(resources[uri], server);
    }
  }
}
