/**
 The TypeScript client's token handling. JavaScript runs each stretch between two
 awaits without interruption, so every method here is one such stretch.
 */
module ClientRefresh {
  import opened Basics

  type Token = string

  datatype Pair = Pair(access: Token, refresh: Token)

  /** An access token, and how many pairs had been stored when it was. */
  datatype Stamped = Stamped(token: Token, version: nat)

  /** `inFlight` numbers the refresh call whose promise is held, if one is outstanding. */
  datatype Held = Held(access: Option<Stamped>, refresh: Option<Token>, inFlight: Option<nat>, stores: nat)

  /** Answers to POST /auth/refresh: a pair, any other status with a JSON body, or nothing usable (network error, not JSON). */
  datatype Answer = Granted(pair: Pair) | Refused | Broken

  /** What a caller of refreshTokens gets: the promise of one refresh call, or an immediate rejection. */
  datatype Ticket = Joined(refreshId: nat) | Started(refreshId: nat, sent: Token) | Rejected

  /** What a request does when its first response is in. */
  datatype Next = Finish | AwaitRefresh(ticket: Ticket)

  function Stored(h: Held, pair: Pair): Held {
    h.(access := Some(Stamped(pair.access, h.stores + 1)), refresh := Some(pair.refresh), stores := h.stores + 1)
  }

  function TicketFor(h: Held, next: nat): Ticket {
    if h.inFlight.Some? then Joined(h.inFlight.value)
    else if h.refresh.None? || h.refresh.value == "" then Rejected
    else Started(next, h.refresh.value)
  }

  function Holding(h: Held, ticket: Ticket): Held {
    if ticket.Started? then h.(inFlight := Some(ticket.refreshId)) else h
  }

  /** An empty string counts as no refresh token at all. */
  predicate HoldsRefreshToken(h: Held) {
    h.refresh.Some? && h.refresh.value != ""
  }

  function AfterFirst(h: Held, unauthorized: bool, noRefresh: bool, next: nat): Next {
    if unauthorized && !noRefresh && HoldsRefreshToken(h) then AwaitRefresh(TicketFor(h, next)) else Finish
  }

  /** A refusal drops whatever refresh token is held by then. */
  function Settled(h: Held, answer: Answer): Held {
    match answer
    case Granted(pair) => Stored(h, pair).(inFlight := None)
    case Refused => h.(refresh := None, inFlight := None)
    case Broken => h.(inFlight := None)
  }

  class Client {
    var accessToken: Option<Token>
    var refreshToken: Option<Token>
    var refreshInFlight: Option<nat>
    ghost var version: nat
    ghost var stores: nat

    constructor (token: Option<Token>, refresh: Option<Token>)
      ensures State() == Held(if token.Some? then Some(Stamped(token.value, 0)) else None, refresh, None, 0)
    {
      accessToken, refreshToken, refreshInFlight := token, refresh, None;
      version, stores := 0, 0;
    }

    ghost function State(): Held
      reads this
    {
      Held(if accessToken.Some? then Some(Stamped(accessToken.value, version)) else None, refreshToken, refreshInFlight, stores)
    }

    method StoreTokens(pair: Pair)
      modifies this
      ensures State() == Stored(old(State()), pair)
    {
      accessToken := Some(pair.access);
      refreshToken := Some(pair.refresh);
      stores := stores + 1;
      version := stores;
    }

    /** Up to the first await of refreshTokens; `next` names the call it would make. */
    method RefreshTokens(next: nat) returns (ticket: Ticket)
      modifies this
      ensures ticket == TicketFor(old(State()), next)
      ensures State() == Holding(old(State()), ticket)
    {
      if refreshInFlight.Some? {
        return Joined(refreshInFlight.value);
      }
      if refreshToken.None? || refreshToken.value == "" {
        return Rejected;
      }
      var current := refreshToken.value;
      refreshInFlight := Some(next);
      ticket := Started(next, current);
    }

    /** The rest of refreshTokens, once the answer is in. */
    method RefreshAnswered(answer: Answer)
      modifies this
      ensures State() == Settled(old(State()), answer)
    {
      match answer {
        case Granted(pair) => StoreTokens(pair);
        case Refused => refreshToken := None;
        case Broken =>
      }
      refreshInFlight := None;
    }

    /** What request and requestPage do between their first response and the refresh or the end. */
    method FirstResponse(unauthorized: bool, noRefresh: bool, next: nat) returns (r: Next)
      modifies this
      ensures r == AfterFirst(old(State()), unauthorized, noRefresh, next)
      ensures State() == if r.AwaitRefresh? then Holding(old(State()), r.ticket) else old(State())
    {
      if unauthorized && !noRefresh && refreshToken.Some? && refreshToken.value != "" {
        var ticket := RefreshTokens(next);
        return AwaitRefresh(ticket);
      }
      r := Finish;
    }

    method SetTokens(access: Option<Token>, refresh: Option<Token>)
      modifies this
      ensures State() == old(State()).(access := if access.Some? then Some(Stamped(access.value, stores)) else None, refresh := refresh)
    {
      accessToken := access;
      refreshToken := refresh;
      version := stores;
    }
  }
}
