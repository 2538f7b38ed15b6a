/**
 * The store handlers of the options page. Each one reads the text of its
 * input fields (trimmed), validates it, loads the whole map, changes it in
 * memory and saves the whole map back. Dialogs are replaced by the
 * `Outcome` a handler ends with; a confirmation dialog by a `confirmed`
 * flag; the browser's CSS-selector check by the `isValidSelector` parameter.
 */
module Options {
  import opened Wrappers
  import opened Text
  import opened DomainName
  import opened CredentialList
  import opened Store

  /** How a handler ends: `Saved` after `saveData`, otherwise the alert it
      shows or the early return it takes. */
  datatype Outcome =
    | Saved
    | MissingFields
    | InvalidDomain
    | InvalidUsernameSelector
    | InvalidPasswordSelector
    | InvalidSelectors
    | DomainExists
    | TooLong
    | NotFound
    | Cancelled

  /** The validation shared by the add-domain and edit-domain forms, in the
      source's order: empty fields, then the domain, then each selector. */
  function DomainFormCheck(domain: string, usernameSelector: string, passwordSelector: string,
                           isValidSelector: string -> bool): (r: Outcome)
    ensures r == Saved <==>
            && domain != [] && usernameSelector != [] && passwordSelector != []
            && IsValidDomain(domain) && isValidSelector(usernameSelector) && isValidSelector(passwordSelector)
    ensures r == MissingFields <==> domain == [] || usernameSelector == [] || passwordSelector == []
    ensures r in {Saved, MissingFields, InvalidDomain, InvalidUsernameSelector, InvalidPasswordSelector}
  {
    if domain == [] || usernameSelector == [] || passwordSelector == [] then MissingFields
    else if !IsValidDomain(domain) then InvalidDomain
    else if !isValidSelector(usernameSelector) then InvalidUsernameSelector
    else if !isValidSelector(passwordSelector) then InvalidPasswordSelector
    else Saved
  }

  /** The order of the form checks: the domain is judged before either
      selector, and the username selector before the password selector. */
  lemma DomainFormCheckOrder(domain: string, usernameSelector: string, passwordSelector: string,
                             isValidSelector: string -> bool)
    ensures var r := DomainFormCheck(domain, usernameSelector, passwordSelector, isValidSelector);
            && (r == InvalidDomain <==>
                  domain != [] && usernameSelector != [] && passwordSelector != [] && !IsValidDomain(domain))
            && (r == InvalidUsernameSelector <==>
                  && domain != [] && usernameSelector != [] && passwordSelector != []
                  && IsValidDomain(domain) && !isValidSelector(usernameSelector))
            && (r == InvalidPasswordSelector <==>
                  && domain != [] && usernameSelector != [] && passwordSelector != []
                  && IsValidDomain(domain) && isValidSelector(usernameSelector)
                  && !isValidSelector(passwordSelector))
  {
  }

  /** The validation shared by the add-credential and edit-credential forms:
      both values present, neither longer than 100 characters. */
  function CredentialFormCheck(username: string, password: string): (r: Outcome)
    ensures r == Saved <==>
            0 < |username| <= MaxCredentialLength && 0 < |password| <= MaxCredentialLength
    ensures r == MissingFields <==> username == [] || password == []
    ensures r in {Saved, MissingFields, TooLong}
  {
    if username == [] || password == [] then MissingFields
    else if |username| > MaxCredentialLength || |password| > MaxCredentialLength then TooLong
    else Saved
  }

  /** `saveDomain`: upserts the domain with the new selectors and
      `autoSortRecent: true`, keeping the credentials it already had. */
  method SaveDomain(storage: Storage, domainInput: string, usernameInput: string, passwordInput: string,
                    isValidSelector: string -> bool) returns (outcome: Outcome)
    modifies storage
    ensures outcome == DomainFormCheck(Trim(domainInput), Trim(usernameInput), Trim(passwordInput), isValidSelector)
    ensures outcome != Saved ==>
              storage.domains == old(storage.domains) && storage.writes == old(storage.writes)
    ensures outcome == Saved ==>
              var d := Trim(domainInput);
              && storage.writes == old(storage.writes) + 1
              && d in storage.domains
              && storage.domains[d] ==
                 DomainConfig(Trim(usernameInput), Trim(passwordInput), Some(true), CredentialsOf(old(storage.domains), d))
              && UnchangedExcept(old(storage.domains), storage.domains, {d})
    ensures WellFormed(old(storage.domains)) ==> WellFormed(storage.domains)
  {
    var domain := Trim(domainInput);
    var usernameSelector := Trim(usernameInput);
    var passwordSelector := Trim(passwordInput);
    outcome := DomainFormCheck(domain, usernameSelector, passwordSelector, isValidSelector);
    if outcome != Saved {
      return;
    }
    var domains := storage.domains;
    domains := domains[domain := DomainConfig(usernameSelector, passwordSelector, Some(true), CredentialsOf(domains, domain))];
    storage.Save(domains);
  }

  /** The map `saveDomainEdit` saves: `cfg` under the new name, the old
      name gone when it differs, every other key as it was; the store
      invariant survives when the new name and config are valid. */
  lemma RenameFrame(m: Domains, oldDomain: string, newDomain: string, cfg: DomainConfig)
    ensures var r := if newDomain != oldDomain then m[newDomain := cfg] - {oldDomain} else m[oldDomain := cfg];
            && newDomain in r && r[newDomain] == cfg
            && (newDomain != oldDomain ==> oldDomain !in r)
            && UnchangedExcept(m, r, {newDomain, oldDomain})
            && (WellFormed(m) && IsValidDomain(newDomain) && ValidConfig(cfg) ==> WellFormed(r))
  {
  }

  /** `saveDomainEdit`: renames and/or edits a domain. A rename onto another
      stored domain is refused; otherwise the new name gets the old name's
      credentials (or none) with the new selectors and flag, and the old
      name is removed when it differs from the new one. */
  method SaveDomainEdit(storage: Storage, oldDomain: string, domainInput: string, usernameInput: string,
                        passwordInput: string, autoSortChecked: bool, isValidSelector: string -> bool)
    returns (outcome: Outcome)
    modifies storage
    ensures var check := DomainFormCheck(Trim(domainInput), Trim(usernameInput), Trim(passwordInput), isValidSelector);
            && (check in {MissingFields, InvalidDomain} ==> outcome == check)
            && (check in {InvalidUsernameSelector, InvalidPasswordSelector} ==> outcome == InvalidSelectors)
            && (check == Saved ==>
                  outcome == if Trim(domainInput) != oldDomain && Trim(domainInput) in old(storage.domains)
                             then DomainExists else Saved)
    ensures outcome != Saved ==>
              storage.domains == old(storage.domains) && storage.writes == old(storage.writes)
    ensures outcome == Saved ==>
              var d := Trim(domainInput);
              && storage.writes == old(storage.writes) + 1
              && d in storage.domains
              && storage.domains[d] ==
                 DomainConfig(Trim(usernameInput), Trim(passwordInput), Some(autoSortChecked),
                              CredentialsOf(old(storage.domains), oldDomain))
              && (d != oldDomain ==> oldDomain !in storage.domains)
              && UnchangedExcept(old(storage.domains), storage.domains, {d, oldDomain})
    ensures WellFormed(old(storage.domains)) ==> WellFormed(storage.domains)
  {
    var newDomain := Trim(domainInput);
    var newUsernameSelector := Trim(usernameInput);
    var newPasswordSelector := Trim(passwordInput);
    var check := DomainFormCheck(newDomain, newUsernameSelector, newPasswordSelector, isValidSelector);
    if check != Saved {
      // The edit form shows one alert for either invalid selector.
      outcome := if check == InvalidUsernameSelector || check == InvalidPasswordSelector then InvalidSelectors else check;
      return;
    }
    var domains := storage.domains;
    if newDomain != oldDomain && newDomain in domains {
      outcome := DomainExists;
      return;
    }
    // The source trims the selectors a second time here, which changes
    // nothing: `Trim` leaves a trimmed string alone.
    var domainData := DomainConfig(newUsernameSelector, newPasswordSelector, Some(autoSortChecked),
                                   CredentialsOf(domains, oldDomain));
    if newDomain != oldDomain {
      domains := domains[newDomain := domainData] - {oldDomain};
    } else {
      domains := domains[oldDomain := domainData];
    }
    RenameFrame(storage.domains, oldDomain, newDomain, domainData);
    storage.Save(domains);
    outcome := Saved;
  }

  /** `deleteDomain`, confirmed: removes exactly that key (and with it the
      domain's credentials); the map is saved even when the key was absent. */
  method DeleteDomain(storage: Storage, domain: string, confirmed: bool) returns (outcome: Outcome)
    modifies storage
    ensures outcome == if confirmed then Saved else Cancelled
    ensures !confirmed ==> storage.domains == old(storage.domains) && storage.writes == old(storage.writes)
    ensures confirmed ==>
              && storage.writes == old(storage.writes) + 1
              && domain !in storage.domains
              && UnchangedExcept(old(storage.domains), storage.domains, {domain})
    ensures WellFormed(old(storage.domains)) ==> WellFormed(storage.domains)
  {
    if !confirmed {
      return Cancelled;
    }
    var domains := storage.domains;
    domains := domains - {domain};
    storage.Save(domains);
    outcome := Saved;
  }

  /** Replacing one domain's list by a list of valid credentials keeps the
      store invariant. */
  lemma CredentialsUpdateKeepsWellFormed(m: Domains, d: string, credentials: seq<Credential>)
    requires WellFormed(m) && d in m
    requires forall i :: 0 <= i < |credentials| ==> ValidCredential(credentials[i])
    ensures WellFormed(m[d := m[d].(credentials := credentials)])
  {
    assert ValidConfig(m[d]);
    UpdateKeepsWellFormed(m, d, m[d].(credentials := credentials));
  }

  /** A move only rearranges entries, so a list of valid credentials stays
      valid. */
  lemma MoveKeepsValid(c: seq<Credential>, from: nat, to: nat)
    requires from < |c| && to < |c|
    requires forall i :: 0 <= i < |c| ==> ValidCredential(c[i])
    ensures var r := Move(c, from, to); forall i :: 0 <= i < |r| ==> ValidCredential(r[i])
  {
    var r := Move(c, from, to);
    forall i | 0 <= i < |r| ensures ValidCredential(r[i]) {
      assert r[i] in multiset(r);
      assert r[i] in multiset(c);
      var j :| 0 <= j < |c| && c[j] == r[i];
    }
  }

  /** `addCredential`: appends the trimmed pair to a stored domain's list. */
  method AddCredential(storage: Storage, domain: string, usernameInput: string, passwordInput: string)
    returns (outcome: Outcome)
    modifies storage
    ensures var check := CredentialFormCheck(Trim(usernameInput), Trim(passwordInput));
            outcome == if check != Saved then check
                       else if domain !in old(storage.domains) then NotFound
                       else Saved
    ensures outcome != Saved ==>
              storage.domains == old(storage.domains) && storage.writes == old(storage.writes)
    ensures outcome == Saved ==>
              var before := old(storage.domains)[domain];
              && storage.writes == old(storage.writes) + 1
              && domain in storage.domains
              && storage.domains[domain] ==
                 before.(credentials := before.credentials + [Credential(Trim(usernameInput), Trim(passwordInput))])
              && UnchangedExcept(old(storage.domains), storage.domains, {domain})
    ensures WellFormed(old(storage.domains)) ==> WellFormed(storage.domains)
  {
    var username := Trim(usernameInput);
    var password := Trim(passwordInput);
    var check := CredentialFormCheck(username, password);
    if check != Saved {
      return check;
    }
    var domains := storage.domains;
    if domain !in domains {
      return NotFound;
    }
    var config := domains[domain];
    var credentials := config.credentials + [Credential(username, password)];
    if WellFormed(domains) {
      assert ValidConfig(config);
      forall i | 0 <= i < |credentials| ensures ValidCredential(credentials[i]) {
        if i < |config.credentials| {
          assert credentials[i] == config.credentials[i];
        }
      }
      CredentialsUpdateKeepsWellFormed(domains, domain, credentials);
    }
    domains := domains[domain := config.(credentials := credentials)];
    storage.Save(domains);
    outcome := Saved;
  }

  /** `saveCredential`: replaces the entry at `index` in place. */
  method SaveCredential(storage: Storage, domain: string, index: int, usernameInput: string, passwordInput: string)
    returns (outcome: Outcome)
    modifies storage
    ensures var check := CredentialFormCheck(Trim(usernameInput), Trim(passwordInput));
            outcome == if check != Saved then check
                       else if domain !in old(storage.domains) then NotFound
                       else if !(0 <= index < |old(storage.domains)[domain].credentials|) then NotFound
                       else Saved
    ensures outcome != Saved ==>
              storage.domains == old(storage.domains) && storage.writes == old(storage.writes)
    ensures outcome == Saved ==>
              var before := old(storage.domains)[domain];
              && storage.writes == old(storage.writes) + 1
              && domain in storage.domains
              && var after := storage.domains[domain];
              && after.usernameSelector == before.usernameSelector
              && after.passwordSelector == before.passwordSelector
              && after.autoSortRecent == before.autoSortRecent
              && |after.credentials| == |before.credentials|
              && after.credentials[index] == Credential(Trim(usernameInput), Trim(passwordInput))
              && (forall k :: 0 <= k < |before.credentials| && k != index ==>
                    after.credentials[k] == before.credentials[k])
              && UnchangedExcept(old(storage.domains), storage.domains, {domain})
    ensures WellFormed(old(storage.domains)) ==> WellFormed(storage.domains)
  {
    var newUsername := Trim(usernameInput);
    var newPassword := Trim(passwordInput);
    var check := CredentialFormCheck(newUsername, newPassword);
    if check != Saved {
      return check;
    }
    var domains := storage.domains;
    if domain !in domains || !(0 <= index < |domains[domain].credentials|) {
      return NotFound;
    }
    var config := domains[domain];
    // The source trims the values a second time here, which changes nothing.
    var credentials := config.credentials[index := Credential(newUsername, newPassword)];
    if WellFormed(domains) {
      assert ValidConfig(config);
      CredentialsUpdateKeepsWellFormed(domains, domain, credentials);
    }
    domains := domains[domain := config.(credentials := credentials)];
    storage.Save(domains);
    outcome := Saved;
  }

  /** `deleteCredential`, confirmed: `splice(index, 1)` on a stored entry. */
  method DeleteCredential(storage: Storage, domain: string, index: int, confirmed: bool) returns (outcome: Outcome)
    modifies storage
    ensures outcome == if domain !in old(storage.domains) then NotFound
                       else if !(0 <= index < |old(storage.domains)[domain].credentials|) then NotFound
                       else if !confirmed then Cancelled
                       else Saved
    ensures outcome != Saved ==>
              storage.domains == old(storage.domains) && storage.writes == old(storage.writes)
    ensures outcome == Saved ==>
              var before := old(storage.domains)[domain];
              && storage.writes == old(storage.writes) + 1
              && domain in storage.domains
              && storage.domains[domain] ==
                 before.(credentials := before.credentials[..index] + before.credentials[index + 1..])
              && UnchangedExcept(old(storage.domains), storage.domains, {domain})
    ensures WellFormed(old(storage.domains)) ==> WellFormed(storage.domains)
  {
    var domains := storage.domains;
    if domain !in domains || !(0 <= index < |domains[domain].credentials|) {
      return NotFound;
    }
    if !confirmed {
      return Cancelled;
    }
    var config := domains[domain];
    domains := domains[domain := config.(credentials := RemoveAt(config.credentials, index))];
    storage.Save(domains);
    outcome := Saved;
  }

  /** `reorderCredentials`: moves the entry at `fromIndex` to `toIndex`
      (remove, then insert into the shortened list); both must be in range. */
  method ReorderCredentials(storage: Storage, domain: string, fromIndex: int, toIndex: int)
    returns (outcome: Outcome)
    modifies storage
    ensures outcome == if domain !in old(storage.domains) then NotFound
                       else if var n := |old(storage.domains)[domain].credentials|;
                               !(0 <= fromIndex < n && 0 <= toIndex < n) then NotFound
                       else Saved
    ensures outcome != Saved ==>
              storage.domains == old(storage.domains) && storage.writes == old(storage.writes)
    ensures outcome == Saved ==>
              var before := old(storage.domains)[domain];
              && storage.writes == old(storage.writes) + 1
              && domain in storage.domains
              && storage.domains[domain] ==
                 before.(credentials := Move(before.credentials, fromIndex, toIndex))
              && UnchangedExcept(old(storage.domains), storage.domains, {domain})
    ensures WellFormed(old(storage.domains)) ==> WellFormed(storage.domains)
  {
    var domains := storage.domains;
    if domain !in domains {
      return NotFound;
    }
    var credentials := domains[domain].credentials;
    if fromIndex < 0 || fromIndex >= |credentials| || toIndex < 0 || toIndex >= |credentials| {
      return NotFound;
    }
    ghost var before := credentials;
    var movedItem := credentials[fromIndex];
    credentials := RemoveAt(credentials, fromIndex);
    credentials := InsertAt(credentials, toIndex, movedItem);
    assert credentials == Move(before, fromIndex, toIndex);
    if WellFormed(domains) {
      assert ValidConfig(domains[domain]);
      MoveKeepsValid(before, fromIndex, toIndex);
      CredentialsUpdateKeepsWellFormed(domains, domain, credentials);
    }
    domains := domains[domain := domains[domain].(credentials := credentials)];
    storage.Save(domains);
    outcome := Saved;
  }

  // -----------------------------------------------------------------------
  // The duplicate check of `saveDomainEdit`, as written
  // -----------------------------------------------------------------------

  /** Members every plain JavaScript object inherits from `Object.prototype`. */
  const PrototypeMembers: set<string> := {
    "constructor", "hasOwnProperty", "isPrototypeOf", "propertyIsEnumerable",
    "toLocaleString", "toString", "valueOf", "__proto__",
    "__defineGetter__", "__defineSetter__", "__lookupGetter__", "__lookupSetter__"
  }

  /** `domains[newDomain]` as the source tests it: truthy for a stored key and
      also for an inherited member of the loaded object. It agrees with `in`
      except on those inherited names. */
  function DomainTakenAsWritten(m: Domains, d: string): (r: bool)
    ensures d in m ==> r
    ensures r && d !in m ==> d in PrototypeMembers
  {
    d in m || d in PrototypeMembers
  }

  /** The outcome of `saveDomainEdit` as written, on the trimmed inputs: the
      form checks, then the duplicate test by truthiness. */
  function EditOutcomeAsWritten(m: Domains, oldDomain: string, newDomain: string, usernameSelector: string,
                                passwordSelector: string, isValidSelector: string -> bool): (r: Outcome)
    ensures var check := DomainFormCheck(newDomain, usernameSelector, passwordSelector, isValidSelector);
            && (check != Saved ==> r != Saved && r != DomainExists)
            && (r == DomainExists <==>
                  check == Saved && newDomain != oldDomain && DomainTakenAsWritten(m, newDomain))
            && (r == Saved ==> newDomain == oldDomain || newDomain !in m)
  {
    var check := DomainFormCheck(newDomain, usernameSelector, passwordSelector, isValidSelector);
    if check == InvalidUsernameSelector || check == InvalidPasswordSelector then InvalidSelectors
    else if check != Saved then check
    else if newDomain != oldDomain && DomainTakenAsWritten(m, newDomain) then DomainExists
    else Saved
  }

  /** With nothing stored under it, `constructor` is a valid domain name,
      yet renaming a domain to it with valid selectors ends, as written, in
      "Domain already exists". `SaveDomainEdit` tests `in` and saves. */
  lemma InheritedNameReportedTaken(m: Domains, oldDomain: string, usernameSelector: string,
                                   passwordSelector: string, isValidSelector: string -> bool)
    requires "constructor" !in m && oldDomain != "constructor"
    requires usernameSelector != [] && passwordSelector != []
    requires isValidSelector(usernameSelector) && isValidSelector(passwordSelector)
    ensures IsValidDomain("constructor")
    ensures EditOutcomeAsWritten(m, oldDomain, "constructor", usernameSelector, passwordSelector, isValidSelector)
            == DomainExists
    ensures !("constructor" != oldDomain && "constructor" in m)
  {
    assert JoinDots(["constructor"]) == "constructor";
    LabelsFormValidDomain(["constructor"]);
  }
}
