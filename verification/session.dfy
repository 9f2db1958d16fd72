/**
  The session manager: `Booker.ensure_logged_in` (src/practable/book.py:163-178).
  The identity store behind `ensure_user` is not modelled: `Booker.user` is the
  identity it would produce.
 */
module Session {
  import opened Types

  /** The token does not outlive `now` by the login margin, so a login is due. */
  predicate NeedsLogin(b: Booker, now: Time)
  {
    !(b.exp > now + LoginMargin)
  }

  /**
    `ensure_logged_in` at time `now`, where `reply` is what the login request
    would return. The login reply's expiry is in whole seconds.
   */
  function EnsureLoggedIn(b: Booker, now: Time, reply: LoginReply): (r: Outcome<Booker>)
    ensures !NeedsLogin(b, now) ==> r == Done(b)
    ensures r.Raised? <==> NeedsLogin(b, now) && reply.status != 200
    ensures r.Raised? ==> r.state == b && r.error == LoginFailed(b.user, b.server)
    ensures r.Done? && NeedsLogin(b, now) ==>
              r.state.token == reply.token && r.state.exp == reply.exp * Second
    ensures r.state == b.(token := r.state.token, exp := r.state.exp)
  {
    if !NeedsLogin(b, now) then Done(b)
    else if reply.status != 200 then Raised(b, LoginFailed(b.user, b.server))
    else Done(b.(token := reply.token, exp := reply.exp * Second))
  }

  /**
    A successful login whose token outlives a later instant by the margin makes
    the next call at that instant a no-op, whatever the server would answer.
   */
  lemma SecondCallDoesNotLogIn(b: Booker, now: Time, reply: LoginReply, later: Time, again: LoginReply)
    requires NeedsLogin(b, now) && reply.status == 200
    requires reply.exp * Second > later + LoginMargin
    ensures EnsureLoggedIn(b, now, reply).Done?
    ensures var b' := EnsureLoggedIn(b, now, reply).state;
            EnsureLoggedIn(b', later, again) == Done(b')
  {
  }

  /**
    `ensure_logged_in` as written: its failure message formats
    `self.booking_server`, an attribute a Booker never has, so a failed login
    raises AttributeError instead of the login failure.
   */
  function EnsureLoggedInAsWritten(b: Booker, now: Time, reply: LoginReply): (r: Outcome<Booker>)
    ensures r.Raised? <==> NeedsLogin(b, now) && reply.status != 200
    ensures r.Raised? ==> r.error == AttributeError("booking_server")
    ensures r.state == EnsureLoggedIn(b, now, reply).state
  {
    match EnsureLoggedIn(b, now, reply)
    case Done(s) => Done(s)
    case Raised(s, _) => Raised(s, AttributeError("booking_server"))
  }

  /** A rejected login never reports which user failed at which server. */
  lemma LoginFailureHidesUser(b: Booker, now: Time, reply: LoginReply)
    requires NeedsLogin(b, now) && reply.status == 500
    ensures EnsureLoggedInAsWritten(b, now, reply) == Raised(b, AttributeError("booking_server"))
    ensures EnsureLoggedIn(b, now, reply) == Raised(b, LoginFailed(b.user, b.server))
  {
  }
}
