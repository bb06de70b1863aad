/** What one probe yields, and the result codes the probe loop tells apart. */
module Probe {
  const SUCCESS: int := 0
  const PINGDD_INTERRUPTED: int := 107

  /** The scratch fields Probe_One writes: LastResult, LastRtt, LastIp, LastTtl. */
  datatype Outcome = Outcome(result: int, rtt: real, ip: string, ttl: int)
}
