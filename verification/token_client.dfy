/** The client-side holder of the current auth token: one cell, last write wins. */
module TokenClient {
  import opened Optional

  datatype TokenClient = TokenClient(token: Option<string>)

  /** A freshly constructed client. */
  const Fresh := TokenClient(None)

  /** `setAuth(token)`; `None` stands for `null`. */
  function SetAuth(c: TokenClient, token: Option<string>): (c': TokenClient)
    ensures GetToken(c') == token
  {
    TokenClient(token)
  }

  /** `getToken()`: a function of the client, so it leaves the client as it is. */
  function GetToken(c: TokenClient): Option<string> {
    c.token
  }

  /** `getToken` reads what `setAuth` stored, and storing what was read
      changes nothing. */
  lemma GetTokenRoundTrip(c: TokenClient, token: Option<string>)
    ensures GetToken(SetAuth(c, token)) == token
    ensures SetAuth(c, GetToken(c)) == c
  {
  }

  /** A sequence of `setAuth` calls, in order. */
  function SetAll(c: TokenClient, tokens: seq<Option<string>>): TokenClient
    decreases |tokens|
  {
    if |tokens| == 0 then c else SetAll(SetAuth(c, tokens[0]), tokens[1..])
  }

  /** A fresh client has no token. */
  lemma FreshHasNoToken()
    ensures GetToken(Fresh) == None
  {
  }

  /** After any sequence of `setAuth` calls the token is the last one set,
      and with no calls it is what it was. */
  lemma {:induction false} LastSetWins(c: TokenClient, tokens: seq<Option<string>>)
    ensures |tokens| == 0 ==> GetToken(SetAll(c, tokens)) == GetToken(c)
    ensures |tokens| > 0 ==> GetToken(SetAll(c, tokens)) == tokens[|tokens| - 1]
    decreases |tokens|
  {
    if |tokens| > 0 {
      LastSetWins(SetAuth(c, tokens[0]), tokens[1..]);
    }
  }

  /** `setAuth(null)` clears the token, whatever came before. */
  lemma SetAuthNullClears(c: TokenClient, tokens: seq<Option<string>>)
    ensures GetToken(SetAll(c, tokens + [None])) == None
  {
    LastSetWins(c, tokens + [None]);
  }
}
