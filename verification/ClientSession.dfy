/** One consumer session and its item streams (src/client.cc).

    A session is its login state and the streams it waits on. The ledger and the request
    serial numbers are bookkeeping of the proof: they say where every token went and which
    request put it there. Encoding and transmission are foreign calls; each handler makes at
    most one, and its outcome is a parameter. */
module ClientSession {

  type Token = t: int | -0x8000_0000 <= t < 0x8000_0000

  datatype Ledger = Ledger(
    inserted: multiset<Token>,
    taken: multiset<Token>,
    submitted: multiset<Token>,
    closed: multiset<Token>,
    dropped: multiset<Token>)

  /** `streams` maps each token in `tokens_` to the serial number of its request. */
  datatype Session = Session(loggedIn: bool, loginToken: Token, streams: map<Token, nat>, ledger: Ledger)

  datatype Message =
    | LoginRequest(token: Token, wellFormed: bool)
    | ItemRequest(token: Token)
    | OtherRequest
    | ItemClose(token: Token)
    | LoginClose
    | OtherClose
    | OtherClass

  /** `ok` is false when the connection is to be aborted. */
  datatype Handled = Handled(session: Session, ok: bool, forwarded: bool)

  const NEW_SESSION := Session(false, 0, map[], Ledger(multiset{}, multiset{}, multiset{}, multiset{}, multiset{}))

  /** Every token ever inserted is outstanding or left exactly once: by a reply, an item close,
      or the end of the session; and only what a reply took was ever submitted. */
  ghost predicate Balanced(s: Session) {
    && s.ledger.inserted == multiset(s.streams.Keys) + s.ledger.taken + s.ledger.closed + s.ledger.dropped
    && s.ledger.submitted <= s.ledger.taken
  }

  // ---- The handlers ----------------------------------------------------------------------

  function OnLoginRequest(s: Session, token: Token, wellFormed: bool, sent: bool): Handled {
    if wellFormed && sent then Handled(s.(loggedIn := true, loginToken := token), true, false)
    else Handled(s, sent, false)
  }

  /** A new token is inserted before the request is handed on. A reissue is ignored. */
  function OnItemRequest(s: Session, token: Token, serial: nat, sent: bool): Handled {
    if !s.loggedIn then Handled(s, sent, false)
    else if token in s.streams then Handled(s, true, false)
    else
      var ledger := s.ledger.(inserted := s.ledger.inserted + multiset{token});
      Handled(s.(streams := s.streams[token := serial], ledger := ledger), sent, sent)
  }

  function OnItemClose(s: Session, token: Token): Session {
    if !s.loggedIn || token !in s.streams then s
    else s.(streams := s.streams - {token}, ledger := s.ledger.(closed := s.ledger.closed + multiset{token}))
  }

  /** Logging out keeps the item streams. */
  function OnLoginClose(s: Session): Session {
    if s.loggedIn then s.(loggedIn := false, loginToken := 0) else s
  }

  function OnMessage(s: Session, m: Message, serial: nat, sent: bool): Handled {
    match m
    case LoginRequest(token, wellFormed) => OnLoginRequest(s, token, wellFormed, sent)
    case ItemRequest(token) => OnItemRequest(s, token, serial, sent)
    case ItemClose(token) => Handled(OnItemClose(s, token), true, false)
    case LoginClose => Handled(OnLoginClose(s), true, false)
    case OtherClose => Handled(s, true, false)
    case OtherRequest => Handled(s, sent, false)
    case OtherClass => Handled(s, sent, false)
  }

  /** The token is given up before the reply is copied and submitted, whether or not those
      succeed; a reply to a token that is gone is dropped and counts as a success. */
  function SendReply(s: Session, token: Token, buffered: bool, submitted: bool): Handled {
    if token !in s.streams then Handled(s, true, false)
    else
      var sent := buffered && submitted;
      var ledger := s.ledger.(
        taken := s.ledger.taken + multiset{token},
        submitted := if sent then s.ledger.submitted + multiset{token} else s.ledger.submitted);
      Handled(s.(streams := s.streams - {token}, ledger := ledger), sent, false)
  }

  /** The end of the session drops its streams, but only while it is logged in. */
  function CloseSession(s: Session): Session {
    if !s.loggedIn then s
    else s.(loggedIn := false, streams := map[],
            ledger := s.ledger.(dropped := s.ledger.dropped + multiset(s.streams.Keys)))
  }

  // ---- Conservation ----------------------------------------------------------------------

  lemma RemoveKey(m: map<Token, nat>, token: Token)
    requires token in m
    ensures multiset(m.Keys) == multiset((m - {token}).Keys) + multiset{token}
  {
    assert m.Keys == (m - {token}).Keys + {token};
  }

  lemma AddKey(m: map<Token, nat>, token: Token, serial: nat)
    requires token !in m
    ensures multiset(m[token := serial].Keys) == multiset(m.Keys) + multiset{token}
  {
    assert m[token := serial].Keys == m.Keys + {token};
  }

  lemma MessageKeepsBalance(s: Session, m: Message, serial: nat, sent: bool)
    requires Balanced(s)
    ensures Balanced(OnMessage(s, m, serial, sent).session)
  {
    match m
    case ItemRequest(token) =>
      if token !in s.streams { AddKey(s.streams, token, serial); }
    case ItemClose(token) =>
      if token in s.streams { RemoveKey(s.streams, token); }
    case _ =>
  }

  lemma ReplyKeepsBalance(s: Session, token: Token, buffered: bool, submitted: bool)
    requires Balanced(s)
    ensures Balanced(SendReply(s, token, buffered, submitted).session)
  {
    if token in s.streams { RemoveKey(s.streams, token); }
  }

  lemma CloseKeepsBalance(s: Session)
    requires Balanced(s)
    ensures Balanced(CloseSession(s))
  {
    var none: map<Token, nat> := map[];
    assert multiset(none.Keys) == multiset{};
  }

  /** A token is answered no more often than it was requested, and while it is outstanding it
      has been answered less often. */
  lemma AnswersWithinRequests(s: Session, token: Token)
    requires Balanced(s)
    ensures s.ledger.submitted[token] + (if token in s.streams then 1 else 0) <= s.ledger.inserted[token]
  {
    assert s.ledger.inserted[token]
        == multiset(s.streams.Keys)[token] + s.ledger.taken[token] + s.ledger.closed[token] + s.ledger.dropped[token];
    assert s.ledger.submitted[token] <= s.ledger.taken[token];
  }

  // ---- What may happen to a session ------------------------------------------------------

  /** A message opens the stream of its own token, and only in a session that is logged in; it
      closes the stream of its own token, and only then. Every other stream stays as it was. */
  lemma StreamsAfterMessage(s: Session, m: Message, serial: nat, sent: bool, t: Token)
    ensures var r := OnMessage(s, m, serial, sent).session;
            && (t in r.streams <==> if t in s.streams then !(m == ItemClose(t) && s.loggedIn) else m == ItemRequest(t) && s.loggedIn)
            && (t in r.streams ==> r.streams[t] == if t in s.streams then s.streams[t] else serial)
  {
  }

  /** A session becomes logged in by a well-formed login that was answered and by nothing else,
      and stays so until a logout. */
  lemma LoginAfterMessage(s: Session, m: Message, serial: nat, sent: bool)
    ensures var r := OnMessage(s, m, serial, sent).session; var login := m.LoginRequest? && m.wellFormed && sent;
            && (r.loggedIn <==> login || (s.loggedIn && m != LoginClose))
            && (r.loginToken == if login then m.token else if m == LoginClose && s.loggedIn then 0 else s.loginToken)
  {
  }

  /** A task is handed on exactly for a new stream of a session that is logged in. */
  lemma HandedOnExactlyWhen(s: Session, m: Message, serial: nat, sent: bool)
    ensures OnMessage(s, m, serial, sent).forwarded <==> m.ItemRequest? && s.loggedIn && m.token !in s.streams && sent
  {
  }

  /** The connection is aborted exactly when something was to be sent and could not be. Nothing is
      sent for a close message, nor for a reissued request. */
  lemma AbortsExactlyWhen(s: Session, m: Message, serial: nat, sent: bool)
    ensures !OnMessage(s, m, serial, sent).ok <==>
              && !sent && !(m.ItemClose? || m.LoginClose? || m.OtherClose?)
              && !(m.ItemRequest? && s.loggedIn && m.token in s.streams)
  {
  }

  /** A reply ends the stream of its token and no other; it fails exactly when there was a stream
      to answer and it could not be copied or submitted. It does not need a login. */
  lemma StreamsAfterReply(s: Session, token: Token, buffered: bool, submitted: bool, t: Token)
    ensures var r := SendReply(s, token, buffered, submitted);
            && (t in r.session.streams <==> t in s.streams && t != token)
            && (t in r.session.streams ==> r.session.streams[t] == s.streams[t])
            && r.session.loggedIn == s.loggedIn && r.session.loginToken == s.loginToken
            && (!r.ok <==> token in s.streams && !(buffered && submitted))
            && (r.session.ledger.submitted[t] == s.ledger.submitted[t] + if t == token && t in s.streams && r.ok then 1 else 0)
  {
  }

  /** At its end a session is logged out, and keeps its streams only if it was so before. */
  lemma EndOfSession(s: Session, t: Token)
    ensures var r := CloseSession(s);
            && !r.loggedIn && (t in r.streams <==> t in s.streams && !s.loggedIn)
            && r.ledger.dropped[t] == s.ledger.dropped[t] + if t in s.streams && s.loggedIn then 1 else 0
  {
  }

  // ---- The session object ----------------------------------------------------------------

  class Client {
    var isLoggedIn: bool
    var loginToken: Token
    var tokens: set<Token>
    ghost var requests: map<Token, nat>
    ghost var ledger: Ledger

    ghost predicate Valid()
      reads this
    {
      tokens == requests.Keys && Balanced(State())
    }

    ghost function State(): Session
      reads this
    {
      Session(isLoggedIn, loginToken, requests, ledger)
    }

    constructor ()
      ensures Valid() && State() == NEW_SESSION
    {
      isLoggedIn, loginToken, tokens := false, 0, {};
      requests, ledger := NEW_SESSION.streams, NEW_SESSION.ledger;
    }

    method OnLogin(token: Token, wellFormed: bool, sent: bool) returns (ok: bool)
      requires Valid()
      modifies this
      ensures Valid()
      ensures Handled(State(), ok, false) == OnLoginRequest(old(State()), token, wellFormed, sent)
    {
      if !wellFormed {
        return sent;
      }
      if !sent {
        return false;
      }
      isLoggedIn := true;
      loginToken := token;
      return true;
    }

    method OnItem(token: Token, ghost serial: nat, sent: bool) returns (ok: bool, forwarded: bool)
      requires Valid()
      modifies this
      ensures Valid()
      ensures Handled(State(), ok, forwarded) == OnItemRequest(old(State()), token, serial, sent)
    {
      if !isLoggedIn {
        return sent, false;
      }
      if token in tokens {
        return true, false;
      }
      AddKey(requests, token, serial);
      tokens := tokens + {token};
      requests := requests[token := serial];
      ledger := ledger.(inserted := ledger.inserted + multiset{token});
      return sent, sent;
    }

    method OnClose(m: Message) returns (ok: bool)
      requires Valid() && (m.ItemClose? || m.LoginClose? || m.OtherClose?)
      modifies this
      ensures Valid()
      ensures Handled(State(), ok, false) == OnMessage(old(State()), m, 0, true)
    {
      match m {
        case ItemClose(token) =>
          if isLoggedIn && token in tokens {
            RemoveKey(requests, token);
            tokens := tokens - {token};
            requests := requests - {token};
            ledger := ledger.(closed := ledger.closed + multiset{token});
          }
        case LoginClose =>
          if isLoggedIn {
            isLoggedIn := false;
            loginToken := 0;
          }
        case OtherClose =>
      }
      return true;
    }

    method OnMsg(m: Message, ghost serial: nat, sent: bool) returns (ok: bool, forwarded: bool)
      requires Valid()
      modifies this
      ensures Valid()
      ensures Handled(State(), ok, forwarded) == OnMessage(old(State()), m, serial, sent)
    {
      forwarded := false;
      match m {
        case LoginRequest(token, wellFormed) => ok := OnLogin(token, wellFormed, sent);
        case ItemRequest(token) => ok, forwarded := OnItem(token, serial, sent);
        case OtherRequest => ok := sent;
        case OtherClass => ok := sent;
        case _ => ok := OnClose(m);
      }
    }

    method Reply(token: Token, buffered: bool, submitted: bool) returns (ok: bool)
      requires Valid()
      modifies this
      ensures Valid()
      ensures Handled(State(), ok, false) == SendReply(old(State()), token, buffered, submitted)
    {
      hide Balanced;
      ReplyKeepsBalance(State(), token, buffered, submitted);
      if token !in tokens {
        return true;
      }
      tokens := tokens - {token};
      requests := requests - {token};
      ledger := ledger.(taken := ledger.taken + multiset{token});
      if !buffered {
        return false;
      }
      if !submitted {
        return false;
      }
      ledger := ledger.(submitted := ledger.submitted + multiset{token});
      return true;
    }

    method Close(sent: bool) returns (ok: bool)
      requires Valid()
      modifies this
      ensures Valid()
      ensures State() == CloseSession(old(State()))
      ensures ok == (old(isLoggedIn) ==> sent)
    {
      if isLoggedIn {
        isLoggedIn := false;
        ledger := ledger.(dropped := ledger.dropped + multiset(requests.Keys));
        tokens, requests := {}, map[];
        return sent;
      }
      return true;
    }
  }
}
