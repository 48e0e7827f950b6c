/** Alert rules: the parameters an operator supplies and the stored rule row. */
module Rules {
  import opened Clock
  import opened Conditions

  /** A rule identifier, numbered by its place in the database's text order. */
  type RuleId = nat

  datatype Params = Params(
    id: RuleId,
    sensor: string,
    enabled: bool,
    level: Band,
    rise: Band,
    risePeriod: int,
    riseWindow: int,
    riseMin: int,
    hold: int,
    stale: int)

  /** Durations are in seconds, except updatedAt. */
  datatype Rule = Rule(params: Params, version: int, updatedAt: Time)

  predicate ValidParams(p: Params) {
    && ValidBand(p.level)
    && ValidBand(p.rise) && 0.0 < p.rise.warning
    && 1 <= p.risePeriod <= 86400
    && 2 <= p.riseWindow <= 86400
    && 1 <= p.riseMin < p.riseWindow
    && p.riseMin <= p.stale <= 604800
    && 0 <= p.hold <= p.stale
  }
}
