/**
 * The content script that runs in the page: it authenticates the fill
 * message, locates the two fields, writes their values, raises `input` and
 * `change` on each, and answers through `sendResponse` exactly once.
 *
 * The page is abstracted to what the script touches: `document.querySelector`
 * becomes the fixed table `selectors` (a selector missing from it matches
 * nothing), the value of every element is an entry of the array `values`,
 * dispatched events are appended to `events` and responses to `responses`.
 */
module PageFiller {
  import opened Wrappers
  import opened Messages

  datatype EventType = InputEvent | ChangeEvent

  datatype DomEvent = DomEvent(eventType: EventType, target: nat, bubbles: bool)

  /** What `document.querySelector(selector)` does: returns the first match,
      returns null, or throws a syntax error for a malformed selector. */
  datatype Lookup = Found(element: nat) | NoMatch | SyntaxError

  /** The `sender` argument of the listener; its `id` may be absent. */
  datatype Sender = Sender(id: Option<string>)

  /** `{success}` or `{success, error}`. */
  datatype Response = Response(success: bool, error: Option<string>)

  /** The two events a filled field receives, in order, both bubbling. */
  function Notifications(field: Lookup): (r: seq<DomEvent>)
    ensures field.Found? ==>
              r == [DomEvent(InputEvent, field.element, true), DomEvent(ChangeEvent, field.element, true)]
    ensures !field.Found? ==> r == []
  {
    if field.Found? then
      [DomEvent(InputEvent, field.element, true), DomEvent(ChangeEvent, field.element, true)]
    else []
  }

  /** The lookup found element `k`. */
  predicate Targets(field: Lookup, k: nat)
  {
    field.Found? && field.element == k
  }

  class Page {
    /** `chrome.runtime.id` of this extension. */
    const runtimeId: string
    const selectors: map<string, Lookup>
    const values: array<string>
    var events: seq<DomEvent>
    var responses: seq<Response>

    /** Every element a selector finds exists on the page. */
    ghost predicate Valid()
    {
      forall s :: s in selectors && selectors[s].Found? ==> selectors[s].element < values.Length
    }

    constructor (runtimeId: string, selectors: map<string, Lookup>, values: array<string>)
      requires forall s :: s in selectors && selectors[s].Found? ==> selectors[s].element < values.Length
      ensures Valid()
      ensures this.runtimeId == runtimeId && this.selectors == selectors && this.values == values
      ensures events == [] && responses == []
    {
      this.runtimeId := runtimeId;
      this.selectors := selectors;
      this.values := values;
      events := [];
      responses := [];
    }

    function Query(selector: string): (r: Lookup)
      requires Valid()
      ensures r.Found? ==> r.element < values.Length
      ensures selector !in selectors ==> r == NoMatch
    {
      if selector in selectors then selectors[selector] else NoMatch
    }

    /** Both lookups ran without throwing; the fields may still be missing. */
    predicate CanFill(message: Message)
      requires Valid()
    {
      && HasAllFields(message)
      && !Query(message.usernameSelector).SyntaxError?
      && !Query(message.passwordSelector).SyntaxError?
    }

    /** What the page `fillCredentials` returns: true exactly when its
        parameters are all present, neither selector is malformed, and at
        least one of the two fields was found. */
    function FillSucceeds(message: Message): (r: bool)
      requires Valid()
      ensures r <==> CanFill(message) &&
                     (Query(message.usernameSelector).Found? || Query(message.passwordSelector).Found?)
      ensures !HasAllFields(message) ==> !r
    {
      CanFill(message) && (Query(message.usernameSelector).Found? || Query(message.passwordSelector).Found?)
    }

    /** The element values after a fill: a found username field holds the
        username, a found password field the password (the password wins
        when both selectors find the same element), every other element is
        untouched; nothing changes when the fill is refused. */
    function ValuesAfterFill(before: seq<string>, message: Message): (r: seq<string>)
      requires Valid() && |before| == values.Length
      ensures |r| == |before|
      ensures !CanFill(message) ==> r == before
      ensures CanFill(message) ==>
                var user, pass := Query(message.usernameSelector), Query(message.passwordSelector);
                && (pass.Found? ==> r[pass.element] == message.password)
                && (user.Found? && !(pass.Found? && pass.element == user.element) ==>
                      r[user.element] == message.username)
                && (forall k :: 0 <= k < |r| && !Targets(user, k) && !Targets(pass, k) ==> r[k] == before[k])
    {
      if !CanFill(message) then before
      else
        var user, pass := Query(message.usernameSelector), Query(message.passwordSelector);
        var afterUser := if user.Found? then before[user.element := message.username] else before;
        if pass.Found? then afterUser[pass.element := message.password] else afterUser
    }

    /** The events a fill dispatches: `input` then `change` on the username
        field if found, then the same on the password field if found. */
    function EventsOfFill(message: Message): (r: seq<DomEvent>)
      requires Valid()
      ensures !CanFill(message) ==> r == []
      ensures CanFill(message) ==>
                r == Notifications(Query(message.usernameSelector)) + Notifications(Query(message.passwordSelector))
      ensures |r| == if FillSucceeds(message) then
                       (if Query(message.usernameSelector).Found? then 2 else 0)
                       + (if Query(message.passwordSelector).Found? then 2 else 0)
                     else 0
    {
      if !CanFill(message) then []
      else Notifications(Query(message.usernameSelector)) + Notifications(Query(message.passwordSelector))
    }

    /** The page `fillCredentials`: refuses incomplete parameters, looks both
        fields up, fills each one found and counts them; a selector that
        throws ends the fill before anything is written. */
    method FillCredentials(message: Message) returns (success: bool)
      requires Valid()
      modifies this, values
      ensures success == FillSucceeds(message)
      ensures values[..] == ValuesAfterFill(old(values[..]), message)
      ensures events == old(events) + EventsOfFill(message)
      ensures responses == old(responses)
    {
      if message.usernameSelector == [] || message.passwordSelector == []
         || message.username == [] || message.password == [] {
        return false;
      }
      var usernameField := Query(message.usernameSelector);
      if usernameField.SyntaxError? {
        return false;
      }
      var passwordField := Query(message.passwordSelector);
      if passwordField.SyntaxError? {
        return false;
      }
      ghost var before := values[..];
      var fieldsFound := 0;
      if usernameField.Found? {
        values[usernameField.element] := message.username;
        events := events + [DomEvent(InputEvent, usernameField.element, true)];
        events := events + [DomEvent(ChangeEvent, usernameField.element, true)];
        fieldsFound := fieldsFound + 1;
      }
      ghost var afterUser := values[..];
      assert afterUser == if usernameField.Found? then before[usernameField.element := message.username] else before;
      if passwordField.Found? {
        values[passwordField.element] := message.password;
        events := events + [DomEvent(InputEvent, passwordField.element, true)];
        events := events + [DomEvent(ChangeEvent, passwordField.element, true)];
        fieldsFound := fieldsFound + 1;
      }
      success := fieldsFound > 0;
    }

    /** The sender is this extension: it has an id and the id is ours. */
    function FromThisExtension(sender: Sender): (r: bool)
      ensures r ==> sender.id == Some(runtimeId)
      ensures runtimeId != [] ==> (r <==> sender.id == Some(runtimeId))
    {
      sender.id.Some? && sender.id.value != [] && sender.id.value == runtimeId
    }

    /** The message listener `handleMessage`: answers every message exactly
        once; only a fill instruction from this extension touches the page. */
    method HandleMessage(message: Option<Message>, sender: Option<Sender>)
      requires Valid()
      modifies this, values
      ensures |responses| == |old(responses)| + 1 && responses[..|old(responses)|] == old(responses)
      ensures var response := responses[|responses| - 1];
              if message.None? || sender.None? then
                && response == Response(false, Some("Invalid message or sender"))
                && values[..] == old(values[..]) && events == old(events)
              else if !FromThisExtension(sender.value) then
                && response == Response(false, Some("Invalid sender"))
                && values[..] == old(values[..]) && events == old(events)
              else if message.value.action != FillAction then
                && response == Response(false, Some("Unknown action"))
                && values[..] == old(values[..]) && events == old(events)
              else
                && response == Response(FillSucceeds(message.value), None)
                && values[..] == ValuesAfterFill(old(values[..]), message.value)
                && events == old(events) + EventsOfFill(message.value)
    {
      if message.None? || sender.None? {
        responses := responses + [Response(false, Some("Invalid message or sender"))];
        return;
      }
      if sender.value.id.None? || sender.value.id.value == [] || sender.value.id.value != runtimeId {
        responses := responses + [Response(false, Some("Invalid sender"))];
        return;
      }
      if message.value.action == FillAction {
        var success := FillCredentials(message.value);
        responses := responses + [Response(success, None)];
      } else {
        responses := responses + [Response(false, Some("Unknown action"))];
      }
    }
  }

  /** The fill reports success exactly when it dispatched events, and then
      some element holds one of the two values it was given. */
  lemma SuccessIffFieldFilled(page: Page, message: Message, before: seq<string>)
    requires page.Valid() && |before| == page.values.Length
    ensures page.FillSucceeds(message) <==> page.EventsOfFill(message) != []
    ensures page.FillSucceeds(message) ==>
              exists k :: 0 <= k < |before| &&
                var after := page.ValuesAfterFill(before, message);
                after[k] == message.username || after[k] == message.password
  {
    if page.FillSucceeds(message) {
      var user, pass := page.Query(message.usernameSelector), page.Query(message.passwordSelector);
      var after := page.ValuesAfterFill(before, message);
      if pass.Found? {
        assert after[pass.element] == message.password;
      } else {
        assert after[user.element] == message.username;
      }
    }
  }

  /** A page where neither selector matches anything: the fill reports
      failure and the page is left as it was. */
  lemma NoMatchFillsNothing(page: Page, message: Message)
    requires page.Valid()
    requires page.Query(message.usernameSelector) == NoMatch
    requires page.Query(message.passwordSelector) == NoMatch
    ensures !page.FillSucceeds(message)
    ensures page.ValuesAfterFill(page.values[..], message) == page.values[..]
    ensures page.EventsOfFill(message) == []
  {
  }

  /** A page where only the password selector matches: the fill still
      succeeds, writing the password and nothing else. */
  lemma PasswordOnlyFillSucceeds(page: Page, message: Message, before: seq<string>)
    requires page.Valid() && |before| == page.values.Length && HasAllFields(message)
    requires page.Query(message.usernameSelector) == NoMatch
    requires page.Query(message.passwordSelector).Found?
    ensures page.FillSucceeds(message)
    ensures var p := page.Query(message.passwordSelector).element;
            page.ValuesAfterFill(before, message) == before[p := message.password]
  {
  }
}
