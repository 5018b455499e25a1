/** The three-layer export request: resource, instrumentation scopes, metrics.
    `V` is the type of measured values and `C` that of histogram counts: bit patterns
    and `uint64`s on the wire, exact numbers where points are added up. */
module Protocol {
  import opened Words
  import opened Labels

  datatype NumberPoint<V> = NumberPoint(attrs: Attrs, ts: I64, val: V)

  datatype HistPoint<V, C> = HistPoint(
    attrs: Attrs, ts: I64, count: C, sum: V, buckets: seq<C>, bounds: seq<V>, min: V, max: V)

  datatype Data<V, C> =
    | NoData
    | Gauge(points: seq<NumberPoint<V>>)
    | Sum(temporality: nat, monotonic: bool, points: seq<NumberPoint<V>>)
    | Histogram(temporality: nat, hists: seq<HistPoint<V, C>>)

  datatype Metric<V, C> = Metric(name: Bytes, unit: Bytes, desc: Bytes, data: Data<V, C>)

  datatype ScopeMetrics<V, C> = ScopeMetrics(scope: Bytes, version: Bytes, metrics: seq<Metric<V, C>>)

  datatype Request<V, C> = Request(agentId: Bytes, attrs: Attrs, exportTime: I64, scopes: seq<ScopeMetrics<V, C>>)

  const DELTA: nat := 1
  const CUMULATIVE: nat := 2
}
