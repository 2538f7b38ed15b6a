/**
 * The persisted data: one map from domain name to `DomainConfig`, kept in
 * extension storage under the key `domains`, and the invariant every
 * handler of the options page keeps on it.
 */
module Store {
  import opened Wrappers
  import opened Text
  import opened DomainName

  /** A saved login. Its identity is its position in the domain's list. */
  datatype Credential = Credential(username: string, password: string)

  /** What is stored per domain. `autoSortRecent` may be absent from a
      stored object (`None`), which the popup reads as enabled. */
  datatype DomainConfig = DomainConfig(
    usernameSelector: string,
    passwordSelector: string,
    autoSortRecent: Option<bool>,
    credentials: seq<Credential>)

  type Domains = map<string, DomainConfig>

  /** The longest username or password the options page accepts. */
  const MaxCredentialLength := 100

  predicate ValidCredential(c: Credential)
  {
    && c.username != [] && IsTrimmed(c.username) && |c.username| <= MaxCredentialLength
    && c.password != [] && IsTrimmed(c.password) && |c.password| <= MaxCredentialLength
  }

  predicate ValidConfig(cfg: DomainConfig)
  {
    && cfg.usernameSelector != [] && IsTrimmed(cfg.usernameSelector)
    && cfg.passwordSelector != [] && IsTrimmed(cfg.passwordSelector)
    && forall i :: 0 <= i < |cfg.credentials| ==> ValidCredential(cfg.credentials[i])
  }

  /** The store invariant: every key is a valid domain name and every
      config has trimmed, non-empty selectors and credentials. */
  predicate WellFormed(m: Domains)
  {
    forall d :: d in m ==> IsValidDomain(d) && ValidConfig(m[d])
  }

  /** Every key outside `keys` is present in both maps or in neither, with
      the same config. */
  ghost predicate UnchangedExcept(before: Domains, after: Domains, keys: set<string>)
  {
    forall k :: k !in keys ==> (k in before <==> k in after) && (k in before ==> before[k] == after[k])
  }

  lemma UpdateKeepsWellFormed(m: Domains, d: string, cfg: DomainConfig)
    requires WellFormed(m) && IsValidDomain(d) && ValidConfig(cfg)
    ensures WellFormed(m[d := cfg])
  {
  }

  lemma RemoveKeepsWellFormed(m: Domains, d: string)
    requires WellFormed(m)
    ensures WellFormed(m - {d})
  {
  }

  /** `domains[domain]?.credentials || []`: the list a re-saved domain keeps. */
  function CredentialsOf(m: Domains, d: string): (r: seq<Credential>)
    ensures d !in m ==> r == []
    ensures WellFormed(m) ==> forall i :: 0 <= i < |r| ==> ValidCredential(r[i])
  {
    if d in m then m[d].credentials else []
  }

  /**
   * The extension's storage area, as `loadData` reads it and `saveData`
   * writes it. `writes` counts the `saveData` calls, so that a handler that
   * returns early can be told apart from one that saves an unchanged map.
   */
  class Storage {
    var domains: Domains
    var writes: nat

    /** Nothing stored yet: `loadData` gives `{}`. */
    constructor ()
      ensures domains == map[] && writes == 0
    {
      domains := map[];
      writes := 0;
    }

    /** `saveData(domains)`: replaces the whole stored map. */
    method Save(ds: Domains)
      modifies this
      ensures domains == ds && writes == old(writes) + 1
    {
      domains := ds;
      writes := writes + 1;
    }
  }
}
