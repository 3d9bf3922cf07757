/** The parts of a trace span that the APM accumulators read (crates/dataplane-ingest/src/trace.rs). */
module Spans {
  datatype Kind = Client | Server | Internal

  // `duration` is max(0, end - start) in microseconds; `peerHost` is the first nonempty
  // peer attribute of a client span.
  datatype Span = Span(traceId: string, spanId: string, parentSpanId: string, kind: Kind,
                       service: string, name: string, timestamp: int, duration: nat,
                       status: string, collector: string, peerHost: string)
  {
    predicate IsRoot() { parentSpanId == "" }

    predicate IsError() { status == "error" }
  }
}
