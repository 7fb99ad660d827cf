/** The authorization server's state as its handlers change it: the dictionary of pending
    codes, guarded by a lock, and the stored tokens. */
module TokenEndpoint {
  import opened Wrappers
  import opened OAuth

  datatype Client = Client(redirects: seq<string>, name: string)

  datatype AuthorizeReply = ServerError | InvalidClient | InvalidRedirect | FormAgain | MissingChallenge
                          | RedirectWithCode(code: string)

  class Endpoint {
    const s256: string -> string
    const clients: map<string, Client>
    const inviteConfigured: bool
    var clock: int
    var codes: map<string, Entry>
    var tokens: map<string, Row>
    var grants: map<nat, Grant>
    ghost var sessions: map<string, Session>
    ghost var minted: set<string>
    ghost var proofs: map<string, string>
    ghost var usedTokens: set<string>
    ghost var usedRequests: set<nat>

    ghost function S(): Server
      reads this
    {
      Server(clock, codes, tokens, grants, sessions, minted, proofs, usedTokens, usedRequests)
    }

    constructor (s256: string -> string, clients: map<string, Client>, inviteConfigured: bool)
      ensures S() == EMPTY && this.s256 == s256 && this.clients == clients && this.inviteConfigured == inviteConfigured
    {
      this.s256, this.clients, this.inviteConfigured := s256, clients, inviteConfigured;
      clock, codes, tokens, grants := 0, map[], map[], map[];
      sessions, minted, proofs, usedTokens, usedRequests := map[], {}, map[], {}, {};
    }

    /** Collects the expired codes first, then removes them. */
    method ReapAuthCodes()
      modifies `codes
      ensures codes == Reaped(old(codes), clock)
      ensures codes == map c | c in old(codes) && old(codes)[c].exp >= clock :: old(codes)[c]
    {
      var expired := set c | c in codes && codes[c].exp < clock;
      var left := expired;
      while left != {}
        invariant left <= expired && codes == map c | c in old(codes) && c !in expired - left :: old(codes)[c]
      {
        var c :| c in left;
        codes := codes - {c};
        left := left - {c};
      }
    }

    /** `code` and `subject` are freshly drawn. A request without a challenge is noticed only
        after the reaping, and stores nothing. */
    method AuthorizePost(client: string, redirect: string, challenge: Option<string>, invited: bool, code: string,
                         subject: string) returns (reply: AuthorizeReply)
      requires code !in minted && subject !in sessions
      modifies this
      ensures reply == if !inviteConfigured then ServerError
                       else if client !in clients then InvalidClient
                       else if redirect !in clients[client].redirects then InvalidRedirect
                       else if !invited then FormAgain
                       else if challenge.None? then MissingChallenge else RedirectWithCode(code)
      ensures S() == match reply
                     case RedirectWithCode(_) =>
                       Apply(s256, old(S()), Authorize(code, subject, client, redirect, challenge.value))
                     case MissingChallenge => Apply(s256, old(S()), Reap)
                     case _ => old(S())
      ensures reply.RedirectWithCode? ==>
                (forall c :: c in codes <==> c == code || (c in old(codes) && old(codes)[c].exp >= clock)) &&
                (forall c :: c in codes && c != code ==> codes[c] == old(codes)[c]) &&
                codes[code] == Entry(client, redirect, challenge.value, subject, clock + 300)
      ensures tokens == old(tokens) && grants == old(grants)
    {
      if !inviteConfigured { return ServerError; }
      if client !in clients { return InvalidClient; }
      if redirect !in clients[client].redirects { return InvalidRedirect; }
      if !invited { return FormAgain; }
      ReapAuthCodes();
      if challenge.None? { return MissingChallenge; }
      codes := codes[code := Entry(client, redirect, challenge.value, subject, clock + CODE_TTL)];
      sessions := sessions[subject := Session(code, client, redirect, challenge.value, clock)];
      minted := minted + {code};
      return RedirectWithCode(code);
    }

    /** The lock covers the reaping and the removal; the checks come after. */
    method RedeemCode(request: nat, code: string, verifier: string, redirect: string, client: string) returns (granted: bool)
      requires Fresh(S(), Redeem(request, code, verifier, redirect, client))
      modifies this
      ensures S() == Apply(s256, old(S()), Redeem(request, code, verifier, redirect, client))
      ensures granted <==> Redeems(s256, old(S()), Redeem(request, code, verifier, redirect, client))
      ensures granted <==> code in old(codes) && old(codes)[code].exp >= clock && old(codes)[code].client == client &&
                           old(codes)[code].redirect == redirect && verifier != "" && old(codes)[code].challenge != "" &&
                           Ascii(verifier) && s256(verifier) == old(codes)[code].challenge
      ensures codes == map c | c in old(codes) && old(codes)[c].exp >= clock && c != code :: old(codes)[c]
      ensures grants == if granted then old(grants)[request := Grant(client, old(codes)[code].subject)] else old(grants)
      ensures tokens == old(tokens)
    {
      usedRequests := usedRequests + {request};
      ReapAuthCodes();
      if code !in codes {
        assert codes - {code} == codes;
        return false;
      }
      var entry := codes[code];
      codes := codes - {code};
      if entry.client != client || entry.redirect != redirect || !Verified(s256, verifier, entry.challenge) {
        return false;
      }
      grants := grants[request := Grant(client, entry.subject)];
      proofs := proofs[code := verifier];
      return true;
    }

    /** Deletes the row if it may be used, and says whose it was. */
    method ConsumeRefresh(request: nat, token: string, client: string) returns (subject: Option<string>)
      requires Fresh(S(), Refresh(request, token, client))
      modifies this
      ensures S() == Apply(s256, old(S()), Refresh(request, token, client))
      ensures subject.Some? <==> Rotates(old(S()), Refresh(request, token, client))
      ensures subject.Some? <==> token in old(tokens) && old(tokens)[token].refresh &&
                                 old(tokens)[token].client == client && old(tokens)[token].expires > clock
      ensures subject.Some? ==> subject.value == old(tokens)[token].subject && tokens == old(tokens) - {token} &&
                                grants == old(grants)[request := Grant(client, subject.value)]
      ensures subject.None? ==> tokens == old(tokens) && grants == old(grants)
      ensures codes == old(codes)
    {
      usedRequests := usedRequests + {request};
      if token !in tokens || !tokens[token].refresh || tokens[token].client != client || tokens[token].expires <= clock {
        return None;
      }
      subject := Some(tokens[token].subject);
      grants := grants[request := Grant(client, subject.value)];
      tokens := tokens - {token};
    }

    /** Removes expired rows and stores the new pair, in one transaction. */
    method IssuePair(request: nat, access: string, refresh: string)
      requires request in grants && Fresh(S(), Issue(request, access, refresh))
      modifies this
      ensures S() == Apply(s256, old(S()), Issue(request, access, refresh))
      ensures AccessSubject(access) == Some(old(grants)[request].subject)
      ensures access in tokens && refresh in tokens && grants == old(grants) - {request} && codes == old(codes)
      ensures var g := old(grants)[request];
              tokens[access] == Row(false, g.client, g.subject, clock + 604800) &&
              tokens[refresh] == Row(true, g.client, g.subject, clock + 2592000)
      ensures forall t :: t != access && t != refresh ==>
                (t in tokens <==> t in old(tokens) && old(tokens)[t].expires >= clock) && (t in tokens ==> tokens[t] == old(tokens)[t])
    {
      var grant := grants[request];
      tokens := map t | t in tokens && tokens[t].expires >= clock :: tokens[t];
      tokens := tokens[access := Row(false, grant.client, grant.subject, clock + ACCESS_TTL)];
      tokens := tokens[refresh := Row(true, grant.client, grant.subject, clock + REFRESH_TTL)];
      usedTokens := usedTokens + {access, refresh};
      grants := grants - {request};
    }

    /** The subject that an access token stands for, while it is unexpired. */
    function AccessSubject(access: string): Option<string>
      reads this
    {
      if access in tokens && !tokens[access].refresh && tokens[access].expires > clock
      then Some(tokens[access].subject) else None
    }

    /** The process restarts: what was only in memory is gone. */
    method RestartProcess()
      modifies this
      ensures S() == Apply(s256, old(S()), Restart) && tokens == old(tokens) && codes == map[]
    {
      codes, grants := map[], map[];
    }
  }
}
