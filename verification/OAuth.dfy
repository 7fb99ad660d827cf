/** Authorization codes and rotating refresh tokens, as one machine over all interleavings:
    a token request consumes its code or refresh token in one step and stores the new pair
    in another, and the process may restart in between. Random names are taken to be fresh;
    `s256` stands for the challenge transform. RFC 6749 sections 4.1.2 and 6, RFC 7636
    section 4.6. */
module OAuth {
  import Sets

  const ACCESS_TTL: int := 7 * 24 * 60 * 60
  const REFRESH_TTL: int := 30 * 24 * 60 * 60
  const CODE_TTL: int := 5 * 60

  /** A pending code, as the process remembers it. */
  datatype Entry = Entry(client: string, redirect: string, challenge: string, subject: string, exp: int)

  /** A stored token. */
  datatype Row = Row(refresh: bool, client: string, subject: string, expires: int)

  /** A token request between its two steps. */
  datatype Grant = Grant(client: string, subject: string)

  /** What was agreed when a subject was minted, and when that was. */
  datatype Session = Session(code: string, client: string, redirect: string, challenge: string, born: int)

  /** `sessions`, `minted`, `proofs` (the verifier each redeemed code was redeemed with) and
      the used names are history. */
  datatype Server = Server(clock: int, codes: map<string, Entry>, tokens: map<string, Row>, grants: map<nat, Grant>,
                           sessions: map<string, Session>, minted: set<string>, proofs: map<string, string>,
                           usedTokens: set<string>, usedRequests: set<nat>)

  datatype Action = Authorize(code: string, subject: string, client: string, redirect: string, challenge: string)
                  | Redeem(request: nat, code: string, verifier: string, redirect: string, client: string)
                  | Refresh(request: nat, token: string, client: string)
                  | Issue(request: nat, access: string, refresh: string)
                  | Lose(request: nat) | Reap | Restart | Tick(seconds: nat)

  const EMPTY := Server(0, map[], map[], map[], map[], {}, map[], {}, {})

  predicate Ascii(s: string) {
    forall k :: 0 <= k < |s| ==> s[k] as int < 128
  }

  /** An empty verifier or challenge never passes; a verifier that is not ASCII raises. */
  predicate Verified(s256: string -> string, verifier: string, challenge: string) {
    verifier != "" && challenge != "" && Ascii(verifier) && s256(verifier) == challenge
  }

  /** A code is usable up to and including its last second. */
  function Reaped(codes: map<string, Entry>, clock: int): map<string, Entry> {
    map c | c in codes && codes[c].exp >= clock :: codes[c]
  }

  function Unexpired(tokens: map<string, Row>, clock: int): map<string, Row> {
    map t | t in tokens && tokens[t].expires >= clock :: tokens[t]
  }

  predicate Fresh(o: Server, a: Action) {
    match a
    case Authorize(code, subject, _, _, _) => code !in o.minted && subject !in o.sessions
    case Redeem(request, _, _, _, _) => request !in o.usedRequests
    case Refresh(request, _, _) => request !in o.usedRequests
    case Issue(_, access, refresh) => access != refresh && access !in o.usedTokens && refresh !in o.usedTokens
    case _ => true
  }

  predicate Redeemable(o: Server, code: string, redirect: string, client: string) {
    code in o.codes && o.codes[code].exp >= o.clock &&
    o.codes[code].client == client && o.codes[code].redirect == redirect
  }

  /** The request turns its code into a grant. */
  predicate Redeems(s256: string -> string, o: Server, a: Action) {
    a.Redeem? && Fresh(o, a) && Redeemable(o, a.code, a.redirect, a.client) &&
    Verified(s256, a.verifier, o.codes[a.code].challenge)
  }

  /** The request turns its refresh token into a grant. */
  predicate Rotates(o: Server, a: Action) {
    a.Refresh? && Fresh(o, a) && a.token in o.tokens && o.tokens[a.token].refresh &&
    o.tokens[a.token].client == a.client && o.tokens[a.token].expires > o.clock
  }

  function Authorized(o: Server, a: Action): Server
    requires a.Authorize?
  {
    o.(codes := Reaped(o.codes, o.clock)[a.code := Entry(a.client, a.redirect, a.challenge, a.subject, o.clock + CODE_TTL)],
       sessions := o.sessions[a.subject := Session(a.code, a.client, a.redirect, a.challenge, o.clock)],
       minted := o.minted + {a.code})
  }

  /** The code is gone whether or not the request succeeds. */
  function Redeemed(s256: string -> string, o: Server, a: Action): Server
    requires a.Redeem?
  {
    var burnt := o.(codes := Reaped(o.codes, o.clock) - {a.code}, usedRequests := o.usedRequests + {a.request});
    if Redeems(s256, o, a)
    then burnt.(grants := o.grants[a.request := Grant(a.client, o.codes[a.code].subject)],
                proofs := o.proofs[a.code := a.verifier])
    else burnt
  }

  function Rotated(o: Server, a: Action): Server
    requires a.Refresh?
  {
    if Rotates(o, a)
    then o.(tokens := o.tokens - {a.token}, usedRequests := o.usedRequests + {a.request},
            grants := o.grants[a.request := Grant(a.client, o.tokens[a.token].subject)])
    else o.(usedRequests := o.usedRequests + {a.request})
  }

  function Issued(o: Server, a: Action): Server
    requires a.Issue? && a.request in o.grants
  {
    var g := o.grants[a.request];
    o.(tokens := Unexpired(o.tokens, o.clock)[a.access := Row(false, g.client, g.subject, o.clock + ACCESS_TTL)]
                                             [a.refresh := Row(true, g.client, g.subject, o.clock + REFRESH_TTL)],
       usedTokens := o.usedTokens + {a.access, a.refresh},
       grants := o.grants - {a.request})
  }

  /** One step; a step that is not possible now changes nothing. */
  function Apply(s256: string -> string, o: Server, a: Action): Server {
    if !Fresh(o, a) then o
    else
      match a
      case Authorize(_, _, _, _, _) => Authorized(o, a)
      case Redeem(_, _, _, _, _) => Redeemed(s256, o, a)
      case Refresh(_, _, _) => Rotated(o, a)
      case Issue(request, _, _) => if request in o.grants then Issued(o, a) else o
      case Lose(request) => o.(grants := o.grants - {request})
      case Reap => o.(codes := Reaped(o.codes, o.clock))
      case Restart => o.(codes := map[], grants := map[])
      case Tick(seconds) => o.(clock := o.clock + seconds)
  }

  function Run(s256: string -> string, o: Server, actions: seq<Action>): Server {
    if actions == [] then o
    else Apply(s256, Run(s256, o, actions[..|actions| - 1]), actions[|actions| - 1])
  }

  // ---- the invariant ----

  /** A pending code is its subject's own, unspent one. */
  predicate CodesOk(codes: map<string, Entry>, sessions: map<string, Session>, proofs: map<string, string>) {
    forall c :: c in codes ==>
      var e := codes[c];
      e.subject in sessions && c !in proofs &&
      sessions[e.subject] == Session(c, e.client, e.redirect, e.challenge, e.exp - CODE_TTL)
  }

  /** The subject's code was redeemed with a verifier that fits its challenge. */
  predicate Proven(s256: string -> string, sessions: map<string, Session>, proofs: map<string, string>,
                   subject: string, client: string)
  {
    subject in sessions && sessions[subject].client == client && sessions[subject].code in proofs &&
    Verified(s256, proofs[sessions[subject].code], sessions[subject].challenge)
  }

  predicate TokensOk(s256: string -> string, tokens: map<string, Row>, sessions: map<string, Session>,
                     proofs: map<string, string>)
  {
    forall t :: t in tokens ==> Proven(s256, sessions, proofs, tokens[t].subject, tokens[t].client)
  }

  predicate GrantsOk(s256: string -> string, grants: map<nat, Grant>, sessions: map<string, Session>,
                     proofs: map<string, string>)
  {
    forall r :: r in grants ==> Proven(s256, sessions, proofs, grants[r].subject, grants[r].client)
  }

  /** A subject has one refresh token or one grant under way, not both and not two. */
  predicate Exclusive(tokens: map<string, Row>, grants: map<nat, Grant>) {
    (forall t, u :: t in tokens && u in tokens && tokens[t].refresh && tokens[u].refresh && t != u ==>
                    tokens[t].subject != tokens[u].subject) &&
    (forall r, q :: r in grants && q in grants && grants[r].subject == grants[q].subject ==> r == q) &&
    forall t, r :: t in tokens && r in grants && tokens[t].refresh ==> tokens[t].subject != grants[r].subject
  }

  predicate NamesOk(o: Server) {
    o.tokens.Keys <= o.usedTokens && o.grants.Keys <= o.usedRequests && o.codes.Keys <= o.minted &&
    o.proofs.Keys <= o.minted && forall s :: s in o.sessions ==> o.sessions[s].code in o.minted
  }

  predicate Inv(s256: string -> string, o: Server) {
    CodesOk(o.codes, o.sessions, o.proofs) && TokensOk(s256, o.tokens, o.sessions, o.proofs) &&
    GrantsOk(s256, o.grants, o.sessions, o.proofs) && Exclusive(o.tokens, o.grants) && NamesOk(o)
  }

  lemma {:induction false} AuthorizeKeeps(s256: string -> string, o: Server, a: Action)
    requires Inv(s256, o) && a.Authorize? && Fresh(o, a)
    ensures Inv(s256, Authorized(o, a))
  {
    hide Exclusive, Verified;
  }

  /** A code's subject has neither a token nor a grant. */
  lemma {:induction false} UnspentAlone(s256: string -> string, o: Server, code: string)
    requires Inv(s256, o) && code in o.codes
    ensures forall t :: t in o.tokens ==> o.tokens[t].subject != o.codes[code].subject
    ensures forall r :: r in o.grants ==> o.grants[r].subject != o.codes[code].subject
  {
    hide Exclusive, Verified, NamesOk;
  }

  /** Spending a code takes it out of the pending ones and proves its session. */
  lemma {:induction false} SpendProves(s256: string -> string, o: Server, a: Action)
    requires Inv(s256, o) && Redeems(s256, o, a)
    ensures var proofs := o.proofs[a.code := a.verifier];
            CodesOk(Reaped(o.codes, o.clock) - {a.code}, o.sessions, proofs) &&
            TokensOk(s256, o.tokens, o.sessions, proofs) && GrantsOk(s256, o.grants, o.sessions, proofs) &&
            Proven(s256, o.sessions, proofs, o.codes[a.code].subject, a.client)
  {
    hide Exclusive, Verified, NamesOk;
    assert a.code !in o.proofs;
  }

  lemma {:induction false} RedeemKeeps(s256: string -> string, o: Server, a: Action)
    requires Inv(s256, o) && a.Redeem? && Fresh(o, a)
    ensures Inv(s256, Redeemed(s256, o, a))
  {
    hide Verified, Proven;
    if Redeems(s256, o, a) {
      UnspentAlone(s256, o, a.code);
      SpendProves(s256, o, a);
    }
  }

  lemma {:induction false} RefreshKeeps(s256: string -> string, o: Server, a: Action)
    requires Inv(s256, o) && a.Refresh? && Fresh(o, a)
    ensures Inv(s256, Rotated(o, a))
  {
    hide Verified, Proven, CodesOk;
  }

  lemma {:induction false} IssueKeeps(s256: string -> string, o: Server, a: Action)
    requires Inv(s256, o) && a.Issue? && Fresh(o, a) && a.request in o.grants
    ensures Inv(s256, Issued(o, a))
  {
    hide Verified, Proven, CodesOk;
  }

  lemma {:induction false} StepKeeps(s256: string -> string, o: Server, a: Action)
    requires Inv(s256, o)
    ensures Inv(s256, Apply(s256, o, a))
  {
    if Fresh(o, a) {
      match a
      case Authorize(_, _, _, _, _) => AuthorizeKeeps(s256, o, a);
      case Redeem(_, _, _, _, _) => RedeemKeeps(s256, o, a);
      case Refresh(_, _, _) => RefreshKeeps(s256, o, a);
      case Issue(request, _, _) => if request in o.grants { IssueKeeps(s256, o, a); }
      case _ => assert Inv(s256, Apply(s256, o, a)) by { DropsKeep(s256, o, a); }
    }
  }

  lemma {:induction false} DropsKeep(s256: string -> string, o: Server, a: Action)
    requires Inv(s256, o) && (a.Lose? || a.Reap? || a.Restart? || a.Tick?)
    ensures Inv(s256, Apply(s256, o, a))
  {
    hide Verified, Proven;
  }

  lemma {:induction false} RunKeeps(s256: string -> string, actions: seq<Action>)
    ensures Inv(s256, Run(s256, EMPTY, actions))
  {
    if actions != [] {
      RunKeeps(s256, actions[..|actions| - 1]);
      StepKeeps(s256, Run(s256, EMPTY, actions[..|actions| - 1]), actions[|actions| - 1]);
    }
  }

  // ---- one line of succession per subject ----

  /** What a session can be continued from. */
  datatype Holder = OfCode(code: string) | OfToken(token: string) | OfGrant(request: nat)

  function Holders(o: Server, subject: string): set<Holder> {
    (set c | c in o.codes && o.codes[c].subject == subject :: OfCode(c)) +
    (set t | t in o.tokens && o.tokens[t].refresh && o.tokens[t].subject == subject :: OfToken(t)) +
    (set r | r in o.grants && o.grants[r].subject == subject :: OfGrant(r))
  }

  lemma {:induction false} HoldersEqual(s256: string -> string, o: Server, subject: string, x: Holder, y: Holder)
    requires Inv(s256, o) && x in Holders(o, subject) && y in Holders(o, subject)
    ensures x == y
  {
    hide Verified, NamesOk;
    if x.OfCode? { UnspentAlone(s256, o, x.code); }
    if y.OfCode? { UnspentAlone(s256, o, y.code); }
  }

  /** In every interleaving, a subject's pending codes, refresh tokens and grants under way
      are at most one together. */
  lemma {:induction false} OneHolder(s256: string -> string, actions: seq<Action>, subject: string)
    ensures |Holders(Run(s256, EMPTY, actions), subject)| <= 1
  {
    var o := Run(s256, EMPTY, actions);
    RunKeeps(s256, actions);
    forall x, y | x in Holders(o, subject) && y in Holders(o, subject) ensures x == y {
      HoldersEqual(s256, o, subject, x, y);
    }
    Sets.AtMostOne(Holders(o, subject));
  }

  // ---- codes are redeemed once ----

  function RedeemCount(s256: string -> string, o: Server, actions: seq<Action>, code: string): nat {
    if actions == [] then 0
    else
      var front, a := actions[..|actions| - 1], actions[|actions| - 1];
      RedeemCount(s256, o, front, code) +
      if Redeems(s256, Run(s256, o, front), a) && a.code == code then 1 else 0
  }

  function Spent(o: Server, code: string): nat {
    if code in o.proofs then 1 else 0
  }

  lemma {:induction false} StepSpends(s256: string -> string, o: Server, a: Action, code: string)
    requires Inv(s256, o)
    ensures Spent(Apply(s256, o, a), code)
         == Spent(o, code) + if Redeems(s256, o, a) && a.code == code then 1 else 0
  {
    hide Verified, TokensOk, GrantsOk, Exclusive, NamesOk;
  }

  /** A code is redeemed at most once, in any run. */
  lemma {:induction false} RedeemedOnce(s256: string -> string, actions: seq<Action>, code: string)
    ensures RedeemCount(s256, EMPTY, actions, code) == Spent(Run(s256, EMPTY, actions), code) <= 1
  {
    hide Inv, Apply, Redeems;
    if actions != [] {
      var front := actions[..|actions| - 1];
      RedeemedOnce(s256, front, code);
      RunKeeps(s256, front);
      StepSpends(s256, Run(s256, EMPTY, front), actions[|actions| - 1], code);
    }
  }

  predicate Gone(o: Server, code: string) {
    code in o.minted && code !in o.codes
  }

  lemma {:induction false} StepGone(s256: string -> string, o: Server, a: Action, code: string)
    requires Gone(o, code)
    ensures Gone(Apply(s256, o, a), code) && !(Redeems(s256, o, a) && a.code == code)
  {
    hide Verified;
  }

  lemma {:induction false} GoneForGood(s256: string -> string, o: Server, actions: seq<Action>, code: string)
    requires Gone(o, code)
    ensures Gone(Run(s256, o, actions), code) && RedeemCount(s256, o, actions, code) == 0
  {
    hide Apply, Redeems, Gone;
    if actions != [] {
      var front := actions[..|actions| - 1];
      GoneForGood(s256, o, front, code);
      StepGone(s256, Run(s256, o, front), actions[|actions| - 1], code);
    }
  }

  /** Presenting a code spends it, even with the wrong client, redirect or verifier: no
      later request can redeem it. */
  lemma {:induction false} AttemptBurns(s256: string -> string, o: Server, a: Action, rest: seq<Action>)
    requires a.Redeem? && Fresh(o, a) && a.code in o.minted
    ensures RedeemCount(s256, Apply(s256, o, a), rest, a.code) == 0
  {
    GoneForGood(s256, Apply(s256, o, a), rest, a.code);
  }

  /** Step `k` of the run was the authorization that minted the code for the subject. */
  predicate Authorizes(s256: string -> string, actions: seq<Action>, k: nat, subject: string, session: Session) {
    k < |actions| && Run(s256, EMPTY, actions[..k]).clock == session.born &&
    actions[k] == Authorize(session.code, subject, session.client, session.redirect, session.challenge)
  }

  lemma {:induction false} StepSessions(s256: string -> string, o: Server, a: Action, subject: string)
    requires subject in Apply(s256, o, a).sessions
    ensures (subject in o.sessions && Apply(s256, o, a).sessions[subject] == o.sessions[subject]) ||
            var t := Apply(s256, o, a).sessions[subject];
            a == Authorize(t.code, subject, t.client, t.redirect, t.challenge) && t.born == o.clock
  {
    hide Verified;
  }

  lemma {:induction false} SessionOrigin(s256: string -> string, actions: seq<Action>, subject: string) returns (k: nat)
    requires subject in Run(s256, EMPTY, actions).sessions
    ensures Authorizes(s256, actions, k, subject, Run(s256, EMPTY, actions).sessions[subject])
  {
    hide Apply;
    var front, last := actions[..|actions| - 1], actions[|actions| - 1];
    var now := Run(s256, EMPTY, front);
    StepSessions(s256, now, last, subject);
    if subject in now.sessions && Run(s256, EMPTY, actions).sessions[subject] == now.sessions[subject] {
      k := SessionOrigin(s256, front, subject);
      assert front[..k] == actions[..k];
    } else {
      k := |front|;
    }
  }

  /** A code is turned into a grant only within 300 seconds of an authorization of the same
      client with the same redirect, for that authorization's subject, and only with a
      verifier of its challenge. */
  lemma {:induction false} GrantOrigin(s256: string -> string, actions: seq<Action>, a: Action)
    requires Redeems(s256, Run(s256, EMPTY, actions), a)
    ensures var o := Run(s256, EMPTY, actions);
            exists k, session: Session ::
              Authorizes(s256, actions, k, o.codes[a.code].subject, session) &&
              session.code == a.code && session.client == a.client && session.redirect == a.redirect &&
              o.clock <= session.born + 300 && a.verifier != "" && s256(a.verifier) == session.challenge &&
              Apply(s256, o, a).grants[a.request] == Grant(a.client, o.codes[a.code].subject)
  {
    RunKeeps(s256, actions);
    var o := Run(s256, EMPTY, actions);
    var subject := o.codes[a.code].subject;
    var k := SessionOrigin(s256, actions, subject);
    assert Authorizes(s256, actions, k, subject, o.sessions[subject]);
  }

  // ---- tokens ----

  /** Every stored token, and every grant, goes back to one authorization: its subject and
      client are those minted with the code, and the code was redeemed with a fitting
      verifier. */
  lemma {:induction false} TokenOrigin(s256: string -> string, actions: seq<Action>, token: string)
    requires token in Run(s256, EMPTY, actions).tokens
    ensures var o := Run(s256, EMPTY, actions);
            var row := o.tokens[token];
            row.subject in o.sessions && row.client == o.sessions[row.subject].client &&
            var code := o.sessions[row.subject].code;
            code in o.proofs && RedeemCount(s256, EMPTY, actions, code) == 1 &&
            o.proofs[code] != "" && s256(o.proofs[code]) == o.sessions[row.subject].challenge
  {
    RunKeeps(s256, actions);
    var o := Run(s256, EMPTY, actions);
    assert Proven(s256, o.sessions, o.proofs, o.tokens[token].subject, o.tokens[token].client);
    RedeemedOnce(s256, actions, o.sessions[o.tokens[token].subject].code);
  }

  predicate Dead(o: Server, subject: string) {
    subject in o.sessions && Holders(o, subject) == {}
  }

  lemma {:induction false} StepDead(s256: string -> string, o: Server, a: Action, subject: string)
    requires Dead(o, subject)
    ensures Dead(Apply(s256, o, a), subject)
  {
    hide Verified, Holders;
    if Fresh(o, a) {
      NoHolders(o, subject);
      match a
      case Authorize(_, _, _, _, _) => NoHoldersBack(Authorized(o, a), subject);
      case Redeem(_, _, _, _, _) =>
        assert NoneHold(Redeemed(s256, o, a), subject);
        NoHoldersBack(Redeemed(s256, o, a), subject);
      case Refresh(_, _, _) => NoHoldersBack(Rotated(o, a), subject);
      case Issue(request, _, _) => if request in o.grants { NoHoldersBack(Issued(o, a), subject); }
      case _ => NoHoldersBack(Apply(s256, o, a), subject);
    }
  }

  predicate NoneHold(o: Server, subject: string) {
    (forall c :: c in o.codes ==> o.codes[c].subject != subject) &&
    (forall t :: t in o.tokens && o.tokens[t].refresh ==> o.tokens[t].subject != subject) &&
    forall r :: r in o.grants ==> o.grants[r].subject != subject
  }

  lemma {:induction false} NoHolders(o: Server, subject: string)
    requires Holders(o, subject) == {}
    ensures NoneHold(o, subject)
  {
    forall c | c in o.codes ensures o.codes[c].subject != subject {
      assert OfCode(c) in Holders(o, subject) || o.codes[c].subject != subject;
    }
    forall t | t in o.tokens && o.tokens[t].refresh ensures o.tokens[t].subject != subject {
      assert OfToken(t) in Holders(o, subject) || o.tokens[t].subject != subject;
    }
    forall r | r in o.grants ensures o.grants[r].subject != subject {
      assert OfGrant(r) in Holders(o, subject) || o.grants[r].subject != subject;
    }
  }

  lemma {:induction false} NoHoldersBack(o: Server, subject: string)
    requires NoneHold(o, subject)
    ensures Holders(o, subject) == {}
  {}

  /** A subject that lost its last code, refresh token and grant is never continued: not
      after a restart between the two steps of a request, and not by a replay. */
  lemma {:induction false} DeadForGood(s256: string -> string, o: Server, actions: seq<Action>, subject: string)
    requires Dead(o, subject)
    ensures Dead(Run(s256, o, actions), subject)
  {
    hide Apply, Dead;
    if actions != [] {
      DeadForGood(s256, o, actions[..|actions| - 1], subject);
      StepDead(s256, Run(s256, o, actions[..|actions| - 1]), actions[|actions| - 1], subject);
    }
  }

  /** Replaying a rotated refresh token fails, whatever happened since. */
  lemma {:induction false} RotatedOnce(s256: string -> string, o: Server, a: Action, rest: seq<Action>, b: Action)
    requires Inv(s256, o) && Rotates(o, a)
    requires b.Refresh? && b.token == a.token
    ensures !Rotates(Run(s256, Apply(s256, o, a), rest), b)
  {
    SpentTokenStays(s256, Apply(s256, o, a), rest, a.token);
  }

  lemma {:induction false} SpentTokenStays(s256: string -> string, o: Server, actions: seq<Action>, token: string)
    requires token in o.usedTokens && token !in o.tokens
    ensures var o' := Run(s256, o, actions); token in o'.usedTokens && token !in o'.tokens
  {
    hide Apply;
    if actions != [] {
      SpentTokenStays(s256, o, actions[..|actions| - 1], token);
      StepSpentToken(s256, Run(s256, o, actions[..|actions| - 1]), actions[|actions| - 1], token);
    }
  }

  lemma {:induction false} StepSpentToken(s256: string -> string, o: Server, a: Action, token: string)
    requires token in o.usedTokens && token !in o.tokens
    ensures token in Apply(s256, o, a).usedTokens && token !in Apply(s256, o, a).tokens
  {
    hide Verified;
  }
}
