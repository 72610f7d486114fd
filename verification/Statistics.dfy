// The snapshot that the routing table hands to the statistics window.
module Statistics {
  import opened Basics

  datatype RoutingStats = RoutingStats(
    totalSystems: Usize, totalRoutes: Usize, totalEndpoints: nat, timestamp: nat)
}
