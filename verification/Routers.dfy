/** The routers of the simulation: fixed links, and face metrics that route calculation
    overwrites and restores. */
module Routers {
  import opened Networks

  class Network {
    const links: seq<seq<Incidency>>
    var metric: map<Face, nat>

    constructor (links: seq<seq<Incidency>>, metric: map<Face, nat>)
      ensures this.links == links && this.metric == metric
    {
      this.links, this.metric := links, metric;
    }

    function State(): Graph
      reads this
    {
      Graph(links, metric)
    }

    method SetMetric(f: Face, m: nat)
      requires f in metric
      modifies this
      ensures metric == old(metric)[f := m]
    {
      metric := metric[f := m];
    }
  }
}
