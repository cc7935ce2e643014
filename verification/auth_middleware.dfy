/**
 * The request gate `authenticateToken` (backend/src/middleware/auth.js): the
 * bearer token is taken from the Authorization header, verified, and the user
 * it names is looked up; the request either gets a 401/403 reply or goes on
 * to the next handler with `req.user` set.
 */
module AuthMiddleware {
  import opened Wrappers
  import opened Text
  import opened Store
  import Query

  const TokenRequired := "Access token required"
  const InvalidToken := "Invalid token"

  /** `t` is the second word of the header `h`: a first word without spaces,
      one space, then `t`, which is not empty, has no space, and is followed
      by the end of the header or a space. */
  ghost predicate SecondWord(h: string, t: string) {
    exists w, rest :: Words(h, w, t, rest)
  }

  /** `h` is the word `w`, one space, the word `t` and then `rest`, which is
      empty or starts with a space. */
  predicate Words(h: string, w: string, t: string, rest: string) {
    h == w + " " + t + rest && ' ' !in w && t != [] && ' ' !in t && (rest == [] || rest[0] == ' ')
  }

  /** `authHeader && authHeader.split(' ')[1]`, kept only when truthy: the
      second space-separated field of the header, when it exists and is not
      empty. */
  function ExtractToken(header: Option<string>): (token: Option<string>)
    ensures token.Some? ==> header.Some? && SecondWord(header.value, token.value)
    ensures header.Some? && (exists t :: SecondWord(header.value, t)) ==> token.Some?
  {
    match header
    case None => None
    case Some(h) =>
      var fields := Split(h, ' ');
      SecondFieldIsSecondWord(h);
      if |fields| >= 2 && fields[1] != "" then Some(fields[1]) else None
  }

  /** The second field of the split header is its second word, and a header
      with a second word has a non-empty second field. */
  lemma SecondFieldIsSecondWord(h: string)
    ensures |Split(h, ' ')| >= 2 && Split(h, ' ')[1] != "" ==> SecondWord(h, Split(h, ' ')[1])
    ensures (exists t :: SecondWord(h, t)) ==> |Split(h, ' ')| >= 2 && Split(h, ' ')[1] != ""
  {
    var fields := Split(h, ' ');
    if |fields| >= 2 && fields[1] != "" {
      SplitSecondField(h, ' ');
      var rest :| h == fields[0] + [' '] + fields[1] + rest && (rest == [] || rest[0] == ' ');
      var w, t := fields[0], fields[1];
      assert Words(h, w, t, rest);
    }
    if exists t :: SecondWord(h, t) {
      var t :| SecondWord(h, t);
      SecondWordIsSecondField(h, t);
    }
  }

  lemma SecondWordIsSecondField(h: string, t: string)
    requires SecondWord(h, t)
    ensures |Split(h, ' ')| >= 2 && Split(h, ' ')[1] == t
  {
    var w, rest :| Words(h, w, t, rest);
    assert h == w + [' '] + t + rest;
    SplitFirstTwo(w, t, rest, ' ');
  }

  /** Whatever the header's second word is, it is the token taken. */
  lemma SecondWordExtracted(h: string, t: string)
    requires SecondWord(h, t)
    ensures ExtractToken(Some(h)) == Some(t)
  {
    SecondWordIsSecondField(h, t);
  }

  /** The header `Bearer <t>` yields `t` back. */
  lemma BearerTokenExtracted(scheme: string, t: string)
    requires ' ' !in scheme && ' ' !in t && t != []
    ensures ExtractToken(Some(scheme + " " + t)) == Some(t)
  {
    var h, rest: string := scheme + " " + t, [];
    assert Words(h, scheme, t, rest);
    SecondWordExtracted(h, t);
  }

  /** A header with no space carries no token. */
  lemma {:induction false} OneWordHasNoToken(h: string)
    requires ' ' !in h
    ensures ExtractToken(Some(h)).None?
  {
    SplitSeparatorFree(h, ' ');
  }

  /** The outcome of the gate: a reply with a status and `{ error }`, or the
      call of `next()` with the selected user as `req.user`. */
  datatype Gate = Refuse(status: nat, error: string) | Pass(user: UserView)

  /** The decision `authenticateToken` makes. The users lookup is store call 0;
      a failed verification or lookup lands in the `catch`. */
  function Decide(header: Option<string>, c: Crypto, users: seq<User>, fault: Fault): (g: Gate)
    ensures g.Refuse? ==> g.status == 401 || g.status == 403
    ensures g.Refuse? ==> g.error == TokenRequired || g.error == InvalidToken
    ensures g.Refuse? && g.status == 403 ==> g.error == InvalidToken
    ensures ExtractToken(header).None? <==> g == Refuse(401, TokenRequired)
    ensures g.Refuse? && g.status == 403 <==>
              ExtractToken(header).Some?
              && (c.verify(ExtractToken(header).value).None? || Fails(fault, 0))
    ensures g.Pass? ==> exists i :: 0 <= i < |users| && g.user == View(users[i])
                          && Some(users[i].id) == c.verify(ExtractToken(header).value)
    ensures g.Pass? <==> ExtractToken(header).Some? && c.verify(ExtractToken(header).value).Some?
                         && !Fails(fault, 0)
                         && exists i :: 0 <= i < |users| && users[i].id == c.verify(ExtractToken(header).value).value
  {
    match ExtractToken(header)
    case None => Refuse(401, TokenRequired)
    case Some(token) =>
      match c.verify(token)
      case None => Refuse(403, InvalidToken)
      case Some(userId) =>
        if Fails(fault, 0) then Refuse(403, InvalidToken)
        else match Query.FirstIndex(users, (u: User) => u.id == userId)
          case None => Refuse(401, InvalidToken)
          case Some(k) => Pass(View(users[k]))
  }

  /** A token the server signed for a user in the table lets the request
      through as that user. */
  lemma IssuedTokenPasses(c: Crypto, users: seq<User>, nextUserId: nat, k: nat, scheme: string)
    requires Sound(c) && KeyedBelow(users, UserKey, nextUserId)
    requires k < |users| && ' ' !in scheme
    ensures Decide(Some(scheme + " " + c.sign(users[k].id)), c, users, Healthy) == Pass(View(users[k]))
  {
    var t := c.sign(users[k].id);
    BearerTokenExtracted(scheme, t);
    var first := Query.FirstIndex(users, (u: User) => u.id == users[k].id);
    assert first.Some?;
    KeysUnique(users, UserKey, nextUserId, first.value, k);
  }

  /** The request and response of one call of the middleware: `req.user`, the
      status and `{ error }` body of the reply (if one was sent) and the number
      of times `next` was called. */
  class Exchange {
    var user: Option<UserView>
    var status: Option<nat>
    var error: string
    var nextCalls: nat

    constructor ()
      ensures user == None && status == None && error == "" && nextCalls == 0
    {
      user, status, error, nextCalls := None, None, "", 0;
    }

    /** `authenticateToken(req, res, next)` on a fresh exchange: exactly one of
        "a reply was sent" and "`next` was called once" happens. */
    method AuthenticateToken(header: Option<string>, c: Crypto, db: Database, fault: Fault)
      requires status == None && nextCalls == 0
      modifies this
      ensures status.Some? <==> nextCalls == 0
      ensures nextCalls <= 1
      ensures match Decide(header, c, db.users, fault)
              case Refuse(s, e) => status == Some(s) && error == e && user == old(user)
              case Pass(v) => user == Some(v) && status == None && nextCalls == 1
    {
      var token := ExtractToken(header);
      if token.None? {
        status, error := Some(401), TokenRequired;
        return;
      }
      var decoded := c.verify(token.value);
      if decoded.None? {
        status, error := Some(403), InvalidToken;
        return;
      }
      if Fails(fault, 0) {
        status, error := Some(403), InvalidToken;
        return;
      }
      var rows := Query.FirstIndex(db.users, (u: User) => u.id == decoded.value);
      if rows.None? {
        status, error := Some(401), InvalidToken;
        return;
      }
      user := Some(View(db.users[rows.value]));
      nextCalls := nextCalls + 1;
    }
  }
}
