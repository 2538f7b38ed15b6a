/** The one instruction the popup sends to the page filler. */
module Messages {

  const FillAction := "fillCredentials"

  /** `{action, usernameSelector, passwordSelector, username, password}`;
      a property the sender left out reads as the empty string, which the
      page filler treats the same way (both are falsy). */
  datatype Message = Message(
    action: string,
    usernameSelector: string,
    passwordSelector: string,
    username: string,
    password: string)

  /** All four fill parameters are present and non-empty. */
  predicate HasAllFields(m: Message)
  {
    m.usernameSelector != [] && m.passwordSelector != [] && m.username != [] && m.password != []
  }
}
