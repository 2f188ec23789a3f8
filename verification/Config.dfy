/** Tenant configuration: the limits and the session policy that the proofs rest on. */
module Config {
  import opened Options

  /** Per-tenant resource limits; 0 means unlimited. */
  datatype TenantLimits = TenantLimits(
    maxSessionsTotal: nat,
    maxRoomsTotal: nat,
    maxUsersPerRoom: nat,
    maxRoomsPerUser: nat)

  datatype SessionMode = Single | Multi

  datatype OnExceed = Deny | KickOldest

  datatype SessionPolicy = SessionPolicy(mode: SessionMode, maxSessionsPerUser: nat, onExceed: OnExceed)

  datatype TenantPolicy = TenantPolicy(rateLimitRps: nat, rateLimitBurst: nat, sessions: SessionPolicy)

  datatype PolicyError = ZeroRate | SingleNeedsOne | ZeroSessions

  function Validate(p: TenantPolicy): Option<PolicyError> {
    if p.rateLimitRps == 0 || p.rateLimitBurst == 0 then Some(ZeroRate)
    else match p.sessions.mode
      case Single => if p.sessions.maxSessionsPerUser != 1 then Some(SingleNeedsOne) else None
      case Multi => if p.sessions.maxSessionsPerUser == 0 then Some(ZeroSessions) else None
  }

  datatype TenantConfig = TenantConfig(limits: TenantLimits, policy: TenantPolicy)

  /** The configuration of every tenant, fixed while the gateway runs. */
  type Tenants = string -> TenantConfig

  ghost predicate Validated(cfg: Tenants) {
    forall t :: Validate(cfg(t).policy) == None
  }

  /** Exactly the policies that validation accepts. */
  lemma ValidateIff(p: TenantPolicy)
    ensures Validate(p) == None
       <==> && p.rateLimitRps >= 1 && p.rateLimitBurst >= 1 && p.sessions.maxSessionsPerUser >= 1
            && (p.sessions.mode == Single ==> p.sessions.maxSessionsPerUser == 1)
  {
  }
}
