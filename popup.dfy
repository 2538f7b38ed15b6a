/**
 * The popup: the recency policy, the promotion of a used credential to the
 * top of its domain's list, and the fill request it sends to the page.
 * The tab query, script injection, message send and `window.close` are
 * replaced by parameters and by the `PopupEffect` log a fill produces.
 */
module Popup {
  import opened Wrappers
  import opened Text
  import opened DomainName
  import opened CredentialList
  import opened Store
  import opened Messages

  /** `shouldMoveToTop`: promote a used credential unless auto-sort is
      explicitly off or it is already on top; an absent flag counts as on. */
  function ShouldMoveToTop(config: DomainConfig, credIndex: int): (r: bool)
    ensures config.autoSortRecent == Some(false) ==> !r
    ensures config.autoSortRecent == Some(true) ==> (r <==> credIndex > 0)
    ensures config.autoSortRecent == None ==> (r <==> credIndex > 0)
  {
    config.autoSortRecent != Some(false) && credIndex > 0
  }

  /** The map `moveCredentialToTop` saves: the entry at `credIndex` of the
      domain's list moves to the front, nothing else changes; a missing
      domain or an index out of range leaves the map as it is. */
  function Promoted(m: Domains, domain: string, credIndex: int): (r: Domains)
    ensures domain !in m || !(0 <= credIndex < |m[domain].credentials|) ==> r == m
    ensures domain in m && 0 <= credIndex < |m[domain].credentials| ==>
              var c := m[domain].credentials;
              && domain in r
              && r[domain] == m[domain].(credentials := r[domain].credentials)
              && |r[domain].credentials| == |c|
              && r[domain].credentials[0] == c[credIndex]
              && multiset(r[domain].credentials) == multiset(c)
              && r[domain].credentials[1..] == c[..credIndex] + c[credIndex + 1..]
    ensures UnchangedExcept(m, r, {domain})
  {
    if domain in m && 0 <= credIndex < |m[domain].credentials| then
      m[domain := m[domain].(credentials := MoveToFront(m[domain].credentials, credIndex))]
    else m
  }

  /** Promoting the first entry leaves the list as it was. */
  lemma PromoteFirstIsIdentity(m: Domains, domain: string)
    requires domain in m && |m[domain].credentials| > 0
    ensures Promoted(m, domain, 0) == m
  {
    MoveToFrontOfFirst(m[domain].credentials);
  }

  /** Promotion keeps the store invariant: it only permutes one list. */
  lemma PromoteKeepsWellFormed(m: Domains, domain: string, credIndex: int)
    requires WellFormed(m)
    ensures WellFormed(Promoted(m, domain, credIndex))
  {
    if domain in m && 0 <= credIndex < |m[domain].credentials| {
      var c := m[domain].credentials;
      var r := Promoted(m, domain, credIndex)[domain].credentials;
      forall k | 0 <= k < |r| ensures ValidCredential(r[k]) {
        if k == 0 {
          assert r[k] == c[credIndex];
        } else if k <= credIndex {
          assert r[k] == (c[..credIndex] + c[credIndex + 1..])[k - 1] == c[k - 1];
        } else {
          assert r[k] == (c[..credIndex] + c[credIndex + 1..])[k - 1] == c[k];
        }
      }
    }
  }

  /** `moveCredentialToTop`: load, `splice` the entry out, `unshift` it,
      save; returns early, without saving, when the domain is missing or the
      index is out of range. */
  method MoveCredentialToTop(storage: Storage, domain: string, credIndex: int)
    modifies storage
    ensures storage.domains == Promoted(old(storage.domains), domain, credIndex)
    ensures storage.writes ==
            if domain in old(storage.domains) && 0 <= credIndex < |old(storage.domains)[domain].credentials|
            then old(storage.writes) + 1 else old(storage.writes)
    ensures WellFormed(old(storage.domains)) ==> WellFormed(storage.domains)
  {
    if WellFormed(storage.domains) {
      PromoteKeepsWellFormed(storage.domains, domain, credIndex);
    }
    var domains := storage.domains;
    if domain !in domains {
      return;
    }
    var credentials := domains[domain].credentials;
    if credIndex < 0 || credIndex >= |credentials| {
      return;
    }
    var movedCredential := credentials[credIndex];
    credentials := RemoveAt(credentials, credIndex);
    credentials := [movedCredential] + credentials;
    domains := domains[domain := domains[domain].(credentials := credentials)];
    storage.Save(domains);
  }

  /** What a click on a credential's Fill button leads to. */
  datatype FillPlan = Ignore | Dispatch(promote: bool, message: Message)

  /** The guard chain of the popup's `fillCredentials`, on the config the
      popup loaded when it opened: a domain, a config, an index in range, a
      credential with a username and a password, and both selectors. */
  function FillAllowed(domain: string, snapshot: Option<DomainConfig>, credIndex: int): (r: bool)
    ensures r ==> snapshot.Some? && 0 <= credIndex < |snapshot.value.credentials|
    ensures snapshot.Some? && ValidConfig(snapshot.value) ==>
              (r <==> domain != [] && 0 <= credIndex < |snapshot.value.credentials|)
  {
    && domain != []
    && snapshot.Some?
    && 0 <= credIndex < |snapshot.value.credentials|
    && snapshot.value.credentials[credIndex].username != []
    && snapshot.value.credentials[credIndex].password != []
    && snapshot.value.usernameSelector != []
    && snapshot.value.passwordSelector != []
  }

  /** The decision `fillCredentials` makes before any effect: ignore the
      click, or promote (per `shouldMoveToTop`) and send the fill message
      built from the trimmed selectors and credential of the snapshot. */
  function PlanFill(domain: string, snapshot: Option<DomainConfig>, credIndex: int): (plan: FillPlan)
    ensures plan.Ignore? <==> !FillAllowed(domain, snapshot, credIndex)
    ensures plan.Dispatch? ==>
              var config := snapshot.value;
              var credential := config.credentials[credIndex];
              && plan.promote == ShouldMoveToTop(config, credIndex)
              && plan.message.action == FillAction
              && plan.message.usernameSelector == Trim(config.usernameSelector)
              && plan.message.passwordSelector == Trim(config.passwordSelector)
              && plan.message.username == Trim(credential.username)
              && plan.message.password == Trim(credential.password)
  {
    if !FillAllowed(domain, snapshot, credIndex) then Ignore
    else
      var config := snapshot.value;
      var credential := config.credentials[credIndex];
      Dispatch(ShouldMoveToTop(config, credIndex),
               Message(FillAction, Trim(config.usernameSelector), Trim(config.passwordSelector),
                       Trim(credential.username), Trim(credential.password)))
  }

  /** For a config taken from a well-formed store, every in-range index is
      dispatched, and the message carries exactly the stored selectors and
      credential, all non-empty, so the page filler accepts its parameters. */
  lemma StoredCredentialDispatchesExactly(m: Domains, domain: string, credIndex: int)
    requires WellFormed(m) && domain in m
    requires 0 <= credIndex < |m[domain].credentials|
    ensures var config := m[domain];
            var credential := config.credentials[credIndex];
            var plan := PlanFill(domain, Some(config), credIndex);
            && plan == Dispatch(ShouldMoveToTop(config, credIndex),
                                Message(FillAction, config.usernameSelector, config.passwordSelector,
                                        credential.username, credential.password))
            && HasAllFields(plan.message)
  {
    var config := m[domain];
    assert IsValidDomain(domain) && ValidConfig(config);
    ValidDomainLabels(domain);
    assert ValidCredential(config.credentials[credIndex]);
  }

  /** What the popup does, in order. */
  datatype PopupEffect =
    | Promotion
    | MessageSent(tabId: int, message: Message)
    | PopupClosed
    | ErrorShown

  /** The popup's `fillCredentials`. `activeTab` is the id the tab query
      gives (if any); `delivered` says whether `sendMessage` resolves. The
      page's reply is not inspected: the popup closes whenever the send
      resolves. Injection errors are ignored and produce no effect. */
  method FillCredentials(storage: Storage, domain: string, snapshot: Option<DomainConfig>, credIndex: int,
                         activeTab: Option<int>, delivered: bool)
    returns (effects: seq<PopupEffect>)
    modifies storage
    ensures var plan := PlanFill(domain, snapshot, credIndex);
            var promote := plan.Dispatch? && plan.promote;
            && (plan.Ignore? ==> effects == [])
            && (plan.Dispatch? ==>
                  effects == (if plan.promote then [Promotion] else [])
                             + (if activeTab.Some? && activeTab.value != 0
                                then [MessageSent(activeTab.value, plan.message),
                                      if delivered then PopupClosed else ErrorShown]
                                else []))
            && storage.domains ==
               (if promote then Promoted(old(storage.domains), domain, credIndex) else old(storage.domains))
            && storage.writes ==
               (if promote && domain in old(storage.domains)
                   && 0 <= credIndex < |old(storage.domains)[domain].credentials|
                then old(storage.writes) + 1 else old(storage.writes))
    ensures WellFormed(old(storage.domains)) ==> WellFormed(storage.domains)
  {
    var plan := PlanFill(domain, snapshot, credIndex);
    if plan.Ignore? {
      return [];
    }
    var promotion: seq<PopupEffect> := [];
    if plan.promote {
      // Awaited: the promotion is saved before anything is sent.
      MoveCredentialToTop(storage, domain, credIndex);
      promotion := [Promotion];
    }
    if activeTab.None? || activeTab.value == 0 {
      return promotion;
    }
    // Sent; then closed if the send resolves, an error shown if it rejects.
    var afterSend := if delivered then PopupClosed else ErrorShown;
    effects := promotion + [MessageSent(activeTab.value, plan.message), afterSend];
  }

  /** The scenario of a two-credential login `[alice, bob]` with auto-sort
      on: filling with bob sends bob's values and promotes bob to the front. */
  lemma TwoCredentialScenario(domain: string, config: DomainConfig, alice: Credential, bob: Credential)
    requires domain != [] && ValidConfig(config)
    requires config.autoSortRecent == Some(true) && config.credentials == [alice, bob]
    ensures PlanFill(domain, Some(config), 1)
            == Dispatch(true, Message(FillAction, config.usernameSelector, config.passwordSelector,
                                      bob.username, bob.password))
    ensures Promoted(map[domain := config], domain, 1)[domain].credentials == [bob, alice]
  {
    assert ValidCredential(config.credentials[1]);
  }
}
