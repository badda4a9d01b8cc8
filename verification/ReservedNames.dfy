/** The built-in reserved names (src/name_authority/names.rs). */
module ReservedNames {
  import Claims
  import opened Names

  const RESERVED: seq<string> := [
    "admin", "administrator", "root", "support", "help", "info", "mail", "email", "www", "relay", "nostr",
    "pay", "payment", "payments", "wallet", "official", "security", "abuse", "postmaster", "hostmaster",
    "webmaster", "contact", "team", "staff", "mod", "moderator", "moderators", "system", "bot", "api", "app",
    "dev", "developer", "test", "testing", "anonymous", "anon", "null", "void", "owner", "ceo", "register",
    "registration", "account", "accounts", "verify", "verified", "billing", "donate", "treasury", "faucet",
    "exchange", "swap", "bank", "money", "cash", "fees", "fee", "node", "miner", "mining", "explorer",
    "status", "blog", "news", "docs", "wiki", "store", "shop"]

  /** The authority's rules: the built-in list, and the operator's domain labels and own list. */
  function AuthorityConfig(nameMin: nat, nameMax: nat, extra: seq<string>): Claims.Config {
    Claims.Config(nameMin, nameMax, RESERVED, extra)
  }

  /** No request ever claims a reserved name, however many separators and digits disguise it. */
  lemma DisguisesAreRefused(
      cfg: Claims.Config, actions: seq<Claims.Action>, base: string, ds: seq<Disguise>)
    requires cfg == AuthorityConfig(cfg.nameMin, cfg.nameMax, cfg.extraReserved)
    requires (base in RESERVED || base in cfg.extraReserved) && AllApply(ds, base)
    ensures !Claims.Active(Claims.Run(cfg, actions).claims, DisguisedBy(ds, base))
  {
    var name, t := DisguisedBy(ds, base), Claims.Run(cfg, actions).claims;
    DisguiseIsUseless(ds, base, cfg.builtin, cfg.extraReserved);
    if Claims.Active(t, name) {
      Claims.RunResolves(cfg, actions, name, t[name].pubkey);
    }
  }
}
