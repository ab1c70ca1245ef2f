/**
 * Login sessions: a refresh entry per session in a timed cache, access tokens that expire by themselves, and a
 * blacklist of access ids. Every cache operation is a separate step, and may fail with or without taking effect.
 */
module Sessions {
  import opened Common

  /** Nanoseconds; token expiry is kept in whole seconds. */
  const SECOND := 1_000_000_000

  datatype Config = Config(access: nat, refresh: nat)

  datatype Entry = Entry(acc: string, until: int)

  datatype Token = Token(session: string, exp: int)

  /** How a cache write ends: acknowledged, applied without the caller learning of it, or not applied. */
  datatype Outcome = Done | Lost | Refused

  /** A Login, Refresh or Logout between two of its steps. */
  datatype Call =
    | Fetched(session: string, acc: string)
    | Revoked(session: string)
    | Storing(session: string, acc: string)
    | Closing(session: string, acc: string)

  datatype Db = Db(
    now: int,
    sessions: set<string>,
    refs: map<string, Entry>,
    black: map<string, int>,
    minted: map<string, Token>,
    returned: set<string>,
    calls: map<nat, Call>)

  datatype Action =
    | Tick(d: nat)
    | LoginMint(call: nat, session: string, acc: string)
    | RefreshGet(call: nat, session: string)
    | RefreshRevoke(call: nat, o: Outcome)
    | RefreshMint(call: nat, acc: string)
    | Store(call: nat, o: Outcome)
    | LogoutDelete(call: nat, session: string, acc: string, o: Outcome)
    | LogoutRevoke(call: nat, o: Outcome)
    | Crash(call: nat)

  /** A refresh entry that has not expired. */
  predicate Present(s: Db, session: string) {
    session in s.refs && s.now < s.refs[session].until
  }

  predicate Enabled(s: Db, a: Action) {
    match a
    case Tick(_) => true
    case LoginMint(c, r, x) => c !in s.calls && r !in s.sessions && x !in s.minted
    case RefreshGet(c, r) => c !in s.calls && Present(s, r)
    case RefreshRevoke(c, _) => c in s.calls && s.calls[c].Fetched?
    case RefreshMint(c, x) => c in s.calls && s.calls[c].Revoked? && x !in s.minted
    case Store(c, _) => c in s.calls && s.calls[c].Storing?
    case LogoutDelete(c, r, x, _) => c !in s.calls && x in s.minted && s.minted[x].session == r
    case LogoutRevoke(c, _) => c in s.calls && s.calls[c].Closing?
    case Crash(c) => c in s.calls
  }

  /** The whole second in which a token minted now expires. */
  function Expiry(cfg: Config, now: int): int {
    (now + cfg.access) / SECOND * SECOND
  }

  /** A token lasts its full time, but for less than the last second. */
  lemma ExpirySays(cfg: Config, now: int)
    ensures now + cfg.access - 1_000_000_000 < Expiry(cfg, now) <= now + cfg.access
    ensures Expiry(cfg, now) % 1_000_000_000 == 0
  {}

  function Revoke(cfg: Config, s: Db, acc: string, o: Outcome): map<string, int> {
    if o == Refused then s.black else s.black[acc := s.now + cfg.access]
  }

  /** A revoked token is on the blacklist for the whole access time, others are not touched. */
  lemma RevokeSays(cfg: Config, s: Db, acc: string, o: Outcome, x: string)
    ensures o != Refused ==> acc in Revoke(cfg, s, acc, o) && Revoke(cfg, s, acc, o)[acc] == s.now + cfg.access
    ensures x != acc || o == Refused ==> (x in Revoke(cfg, s, acc, o) <==> x in s.black)
    ensures (x != acc || o == Refused) && x in s.black ==> Revoke(cfg, s, acc, o)[x] == s.black[x]
  {}

  function Do(cfg: Config, s: Db, a: Action): Db
    requires Enabled(s, a)
  {
    match a
    case Tick(d) => s.(now := s.now + d)
    case LoginMint(c, r, x) =>
      s.(sessions := s.sessions + {r}, minted := s.minted[x := Token(r, Expiry(cfg, s.now))], calls := s.calls[c := Storing(r, x)])
    case RefreshGet(c, r) => s.(calls := s.calls[c := Fetched(r, s.refs[r].acc)])
    case RefreshRevoke(c, o) =>
      s.(black := Revoke(cfg, s, s.calls[c].acc, o),
         calls := if o == Done then s.calls[c := Revoked(s.calls[c].session)] else s.calls - {c})
    case RefreshMint(c, x) =>
      var r := s.calls[c].session;
      s.(minted := s.minted[x := Token(r, Expiry(cfg, s.now))], calls := s.calls[c := Storing(r, x)])
    case Store(c, o) =>
      var call := s.calls[c];
      s.(refs := if o == Refused then s.refs else s.refs[call.session := Entry(call.acc, s.now + cfg.refresh)],
         returned := if o == Done then s.returned + {call.acc} else s.returned,
         calls := s.calls - {c})
    case LogoutDelete(c, r, x, o) =>
      s.(refs := if o == Refused then s.refs else s.refs - {r},
         calls := if o == Done then s.calls[c := Closing(r, x)] else s.calls)
    case LogoutRevoke(c, o) =>
      s.(black := Revoke(cfg, s, s.calls[c].acc, o), calls := s.calls - {c})
    case Crash(c) => s.(calls := s.calls - {c})
  }

  /** A token of `session` that was returned to the client and is neither expired nor blacklisted. */
  predicate Live(s: Db, session: string, x: string) {
    && x in s.returned && x in s.minted && s.minted[x].session == session
    && s.now < s.minted[x].exp && !(x in s.black && s.now < s.black[x])
  }

  // ---- Every run -------------------------------------------------------------------------------

  predicate TokenOk(cfg: Config, s: Db, x: string)
    requires x in s.minted
  {
    s.minted[x].session in s.sessions && s.minted[x].exp <= s.now + cfg.access
  }

  /** A blacklist entry outlives the token it names. */
  predicate Outlives(s: Db, x: string)
    requires x in s.black
  {
    x in s.minted && s.minted[x].exp <= s.black[x]
  }

  predicate Minted(s: Db, session: string, x: string) {
    x in s.minted && s.minted[x].session == session
  }

  predicate CallOk(s: Db, c: nat)
    requires c in s.calls
  {
    s.calls[c].session in s.sessions && (!s.calls[c].Revoked? ==> Minted(s, s.calls[c].session, s.calls[c].acc))
  }

  ghost predicate Inv(cfg: Config, s: Db) {
    && (forall x :: x in s.minted ==> TokenOk(cfg, s, x))
    && (forall x :: x in s.black ==> Outlives(s, x))
    && (forall r :: r in s.refs ==> Minted(s, r, s.refs[r].acc))
    && (forall c :: c in s.calls ==> CallOk(s, c))
    && (forall x :: x in s.returned ==> x in s.minted)
  }

  lemma InvStays(cfg: Config, s: Db, a: Action)
    requires Inv(cfg, s) && Enabled(s, a)
    ensures Inv(cfg, Do(cfg, s, a))
  {
    var t := Do(cfg, s, a);
    forall c | c in t.calls ensures CallOk(t, c) {
      if c in s.calls { assert CallOk(s, c); }
    }
    forall r | r in t.refs ensures Minted(t, r, t.refs[r].acc) {
      if r in s.refs { assert Minted(s, r, s.refs[r].acc); }
    }
    forall x | x in t.black ensures Outlives(t, x) {
      if x in s.black { assert Outlives(s, x); }
      if x in s.minted { assert TokenOk(cfg, s, x); }
    }
    forall x | x in t.minted ensures TokenOk(cfg, t, x) {
      if x in s.minted { assert TokenOk(cfg, s, x); }
    }
  }

  predicate Step(cfg: Config, s: Db, a: Action, t: Db) {
    Enabled(s, a) && t == Do(cfg, s, a)
  }

  ghost predicate Follows(cfg: Config, states: seq<Db>, acts: seq<Action>) {
    && |states| == |acts| + 1
    && (forall i {:trigger StepAt(cfg, states, acts, i)} :: 0 <= i < |acts| ==> StepAt(cfg, states, acts, i))
  }

  predicate StepAt(cfg: Config, states: seq<Db>, acts: seq<Action>, i: nat)
    requires |states| == |acts| + 1 && i < |acts|
  {
    Step(cfg, states[i], acts[i], states[i + 1])
  }

  /** A run from an empty cache. */
  ghost predicate Run(cfg: Config, states: seq<Db>, acts: seq<Action>) {
    Follows(cfg, states, acts) && states[0] == Db(states[0].now, {}, map[], map[], map[], {}, map[])
  }

  lemma {:induction false} InvFollows(cfg: Config, states: seq<Db>, acts: seq<Action>, i: nat)
    requires Follows(cfg, states, acts) && Inv(cfg, states[0]) && i < |states|
    ensures Inv(cfg, states[i])
  {
    if i == 0 {
    } else {
      InvFollows(cfg, states, acts, i - 1);
      assert StepAt(cfg, states, acts, i - 1);
      InvStays(cfg, states[i - 1], acts[i - 1]);
    }
  }

  // ---- One live token per session --------------------------------------------------------------

  predicate On(s: Db, c: nat, session: string) {
    c in s.calls && s.calls[c].session == session
  }

  /** A Refresh or Logout of the session starts only when none is under way. */
  ghost predicate Serial(s: Db, a: Action, session: string) {
    (a.RefreshGet? || a.LogoutDelete?) && a.session == session ==> forall c :: !On(s, c, session)
  }

  /** What the step a call has reached says about the tokens of its session. */
  ghost predicate CallFits(s: Db, session: string, call: Call) {
    match call
    case Fetched(_, x) => session in s.refs && s.refs[session].acc == x
    case Revoked(_) => forall x :: !Live(s, session, x)
    case Storing(_, _) => forall x :: !Live(s, session, x)
    case Closing(_, _) => session !in s.refs
  }

  ghost predicate OneLive(s: Db, session: string) {
    forall x, y :: Live(s, session, x) && Live(s, session, y) ==> x == y
  }

  ghost predicate OneCall(s: Db, session: string) {
    forall c, d :: On(s, c, session) && On(s, d, session) ==> c == d
  }

  ghost predicate SessionOk(s: Db, session: string) {
    && OneLive(s, session)
    && (session in s.refs ==> forall x :: Live(s, session, x) ==> x == s.refs[session].acc)
    && OneCall(s, session)
    && (forall c :: On(s, c, session) ==> CallFits(s, session, s.calls[c]))
  }

  /** A blacklisted token is never live, however much time passes. */
  lemma RevokedIsDead(cfg: Config, s: Db, session: string, x: string)
    requires Inv(cfg, s)
    ensures x in s.black ==> !Live(s, session, x)
  {
    if x in s.black { assert Outlives(s, x); }
  }

  /** Only storing a new token makes one live. */
  lemma LiveStays(cfg: Config, s: Db, a: Action, session: string, x: string)
    requires Inv(cfg, s) && Enabled(s, a) && Live(Do(cfg, s, a), session, x)
    ensures Live(s, session, x)
      || (a.Store? && a.o == Done && s.calls[a.call].acc == x && s.calls[a.call].session == session)
  {
    var t := Do(cfg, s, a);
    InvStays(cfg, s, a);
    RevokedIsDead(cfg, t, session, x);
    if a.Store? {
      assert CallOk(s, a.call);
    }
    assert x in s.returned || (a.Store? && a.o == Done && s.calls[a.call].acc == x);
  }

  lemma RevokedNow(cfg: Config, s: Db, a: Action, session: string)
    requires Inv(cfg, s) && Enabled(s, a) && (a.RefreshRevoke? || a.LogoutRevoke?) && a.o != Refused
    ensures !Live(Do(cfg, s, a), session, s.calls[a.call].acc)
  {
    InvStays(cfg, s, a);
    RevokedIsDead(cfg, Do(cfg, s, a), session, s.calls[a.call].acc);
  }

  lemma SessionStaysOk(cfg: Config, s: Db, a: Action, session: string)
    requires Inv(cfg, s) && SessionOk(s, session) && Enabled(s, a) && Serial(s, a, session)
    ensures SessionOk(Do(cfg, s, a), session)
  {
    LiveFits(cfg, s, a, session);
    CallsFit(cfg, s, a, session);
  }

  /** After a step, a live token of the session was live before or is the one just stored. */
  lemma LiveFits(cfg: Config, s: Db, a: Action, session: string)
    requires Inv(cfg, s) && SessionOk(s, session) && Enabled(s, a) && Serial(s, a, session)
    ensures var t := Do(cfg, s, a);
      OneLive(t, session) && (session in t.refs ==> forall x :: Live(t, session, x) ==> x == t.refs[session].acc)
  {
    var t := Do(cfg, s, a);
    forall x | Live(t, session, x)
      ensures Live(s, session, x) || (a.Store? && a.o == Done && s.calls[a.call].acc == x && s.calls[a.call].session == session)
    {
      LiveStays(cfg, s, a, session, x);
    }
    if a.Store? && s.calls[a.call].session == session {
      assert On(s, a.call, session);
    }
  }

  lemma CallsFit(cfg: Config, s: Db, a: Action, session: string)
    requires Inv(cfg, s) && SessionOk(s, session) && Enabled(s, a) && Serial(s, a, session)
    ensures var t := Do(cfg, s, a);
      OneCall(t, session) && forall c :: On(t, c, session) ==> CallFits(t, session, t.calls[c])
  {
    var t := Do(cfg, s, a);
    forall c | On(t, c, session) ensures On(s, c, session) || Starts(a, c, session) {
      CameFrom(cfg, s, a, session, c);
    }
    forall c | On(t, c, session) ensures CallFits(t, session, t.calls[c]) {
      CallFitsAfter(cfg, s, a, session, c);
    }
    if a.LoginMint? {
      forall c | On(s, c, session) ensures session != a.session { assert CallOk(s, c); }
    }
  }

  predicate Starts(a: Action, c: nat, session: string) {
    (a.LoginMint? || a.RefreshGet? || a.LogoutDelete?) && a.call == c && a.session == session
  }

  lemma CameFrom(cfg: Config, s: Db, a: Action, session: string, c: nat)
    requires Enabled(s, a) && On(Do(cfg, s, a), c, session)
    ensures On(s, c, session) || Starts(a, c, session)
  {}

  lemma StoreEndsTheCall(cfg: Config, s: Db, a: Action, session: string, c: nat)
    requires OneCall(s, session) && Enabled(s, a) && On(Do(cfg, s, a), c, session)
    ensures a.Store? ==> !On(s, a.call, session)
  {
    CameFrom(cfg, s, a, session, c);
  }

  lemma CallFitsAfter(cfg: Config, s: Db, a: Action, session: string, c: nat)
    requires Inv(cfg, s) && SessionOk(s, session) && Enabled(s, a) && Serial(s, a, session)
    requires On(Do(cfg, s, a), c, session)
    ensures CallFits(Do(cfg, s, a), session, Do(cfg, s, a).calls[c])
  {
    var t := Do(cfg, s, a);
    CameFrom(cfg, s, a, session, c);
    StoreEndsTheCall(cfg, s, a, session, c);
    forall x | Live(t, session, x)
      ensures Live(s, session, x) || (a.Store? && a.o == Done && On(s, a.call, session))
    {
      LiveStays(cfg, s, a, session, x);
    }
    if a.LoginMint? && a.session == session {
      forall x ensures !Live(s, session, x) {
        if x in s.minted { assert TokenOk(cfg, s, x); }
      }
    }
    if a.RefreshRevoke? && a.o == Done {
      RevokedNow(cfg, s, a, session);
    }
  }

  lemma {:induction false} SessionAlwaysOk(cfg: Config, states: seq<Db>, acts: seq<Action>, i: nat, session: string)
    requires Run(cfg, states, acts) && i < |states|
    requires forall j :: 0 <= j < i ==> Serial(states[j], acts[j], session)
    ensures SessionOk(states[i], session)
  {
    if i == 0 {
    } else {
      SessionAlwaysOk(cfg, states, acts, i - 1, session);
      InvFollows(cfg, states, acts, i - 1);
      assert StepAt(cfg, states, acts, i - 1);
      SessionStaysOk(cfg, states[i - 1], acts[i - 1], session);
    }
  }

  /** While the Refreshes and Logouts of a session do not overlap, at most one of its returned tokens is live. */
  lemma AtMostOneLive(cfg: Config, states: seq<Db>, acts: seq<Action>, i: nat, session: string, x: string, y: string)
    requires Run(cfg, states, acts) && i < |states|
    requires forall j :: 0 <= j < i ==> Serial(states[j], acts[j], session)
    requires Live(states[i], session, x) && Live(states[i], session, y)
    ensures x == y
  {
    SessionAlwaysOk(cfg, states, acts, i, session);
  }

  // ---- Which tokens are live, whatever overlaps ------------------------------------------------

  /** The step blacklists the token. */
  predicate Revokes(s: Db, a: Action, x: string) {
    && (a.RefreshRevoke? || a.LogoutRevoke?) && a.o != Refused
    && a.call in s.calls && !s.calls[a.call].Revoked? && s.calls[a.call].acc == x
  }

  predicate RevokedAt(states: seq<Db>, acts: seq<Action>, x: string, k: nat) {
    k < |acts| && k < |states| && Revokes(states[k], acts[k], x)
  }

  lemma BlackStep(cfg: Config, s: Db, a: Action, x: string)
    requires Enabled(s, a)
    ensures x in Do(cfg, s, a).black <==> x in s.black || Revokes(s, a, x)
  {}

  lemma {:induction false} BlackIffRevoked(cfg: Config, states: seq<Db>, acts: seq<Action>, n: nat, x: string)
    requires Follows(cfg, states, acts) && n < |states| && x !in states[0].black
    ensures x in states[n].black <==> exists k: nat :: k < n && RevokedAt(states, acts, x, k)
  {
    if n == 0 {
    } else {
      BlackIffRevoked(cfg, states, acts, n - 1, x);
      assert StepAt(cfg, states, acts, n - 1);
      BlackStep(cfg, states[n - 1], acts[n - 1], x);
      assert Revokes(states[n - 1], acts[n - 1], x) <==> RevokedAt(states, acts, x, n - 1);
    }
  }

  /**
   * For any number of overlapping calls: a returned token that has not expired is live if and only if no Refresh or
   * Logout that names it has blacklisted it.
   */
  lemma LiveIffUnrevoked(cfg: Config, states: seq<Db>, acts: seq<Action>, n: nat, session: string, x: string)
    requires Follows(cfg, states, acts) && Inv(cfg, states[0]) && n < |states| && x !in states[0].black
    requires Minted(states[n], session, x) && x in states[n].returned && states[n].now < states[n].minted[x].exp
    ensures Live(states[n], session, x) <==> forall k: nat :: k < n ==> !RevokedAt(states, acts, x, k)
  {
    BlackIffRevoked(cfg, states, acts, n, x);
    InvFollows(cfg, states, acts, n);
    RevokedIsDead(cfg, states[n], session, x);
  }

  // ---- After Logout ----------------------------------------------------------------------------

  /** The session can never have a live token other than `keep` again; the calls left on it can only revoke tokens. */
  ghost predicate Ended(s: Db, session: string, keep: Option<string>) {
    && session in s.sessions && session !in s.refs
    && (forall c :: On(s, c, session) ==> s.calls[c].Closing?)
    && (forall x :: Live(s, session, x) ==> keep == Some(x))
  }

  lemma EndedStays(cfg: Config, s: Db, a: Action, session: string, keep: Option<string>)
    requires Inv(cfg, s) && Enabled(s, a) && Ended(s, session, keep)
    ensures Ended(Do(cfg, s, a), session, keep)
  {
    var t := Do(cfg, s, a);
    assert a.Store? ==> !On(s, a.call, session);
    forall x | Live(t, session, x) ensures keep == Some(x) { LiveStays(cfg, s, a, session, x); }
    forall c | On(t, c, session) ensures t.calls[c].Closing? { CameFrom(cfg, s, a, session, c); }
  }

  lemma {:induction false} EndedForever(
    cfg: Config, states: seq<Db>, acts: seq<Action>, i: nat, j: nat, session: string, keep: Option<string>)
    requires Run(cfg, states, acts) && i <= j < |states| && Ended(states[i], session, keep)
    ensures Ended(states[j], session, keep)
  {
    if i == j {
    } else {
      EndedForever(cfg, states, acts, i, j - 1, session, keep);
      InvFollows(cfg, states, acts, j - 1);
      assert StepAt(cfg, states, acts, j - 1);
      EndedStays(cfg, states[j - 1], acts[j - 1], session, keep);
    }
  }

  /** The step belongs to the call `c`. */
  predicate Moves(a: Action, c: nat) {
    !a.Tick? && a.call == c
  }

  lemma {:induction false} CallWaits(cfg: Config, states: seq<Db>, acts: seq<Action>, i: nat, j: nat, c: nat)
    requires Follows(cfg, states, acts) && i <= j < |states|
    requires forall k :: i <= k < j ==> !Moves(acts[k], c)
    ensures c in states[i].calls <==> c in states[j].calls
    ensures c in states[j].calls ==> states[j].calls[c] == states[i].calls[c]
  {
    if i == j {
    } else {
      CallWaits(cfg, states, acts, i, j - 1, c);
      assert StepAt(cfg, states, acts, j - 1);
    }
  }

  /** No Login or Refresh of the session is under way, and `keep` is the only token of it that may be live. */
  ghost predicate Quiet(s: Db, session: string, keep: string) {
    && (forall c :: On(s, c, session) ==> s.calls[c].Closing?)
    && (forall x :: Live(s, session, x) ==> x == keep)
  }

  /** When the calls on a session do not overlap, that is so for its current token whenever a Logout starts. */
  lemma SerialIsQuiet(s: Db, session: string, x: string)
    requires SessionOk(s, session) && forall c :: !On(s, c, session)
    requires Live(s, session, x) || (session in s.refs && s.refs[session].acc == x)
    ensures Quiet(s, session, x)
  {}

  /** Deleting the refresh entry then leaves at most the token that the Logout names. */
  lemma DeleteEnds(cfg: Config, s: Db, a: Action)
    requires Inv(cfg, s) && Enabled(s, a) && a.LogoutDelete? && a.o == Done && Quiet(s, a.session, a.acc)
    ensures Ended(Do(cfg, s, a), a.session, Some(a.acc))
  {
    var t := Do(cfg, s, a);
    assert TokenOk(cfg, s, a.acc);
    forall x | Live(t, a.session, x) ensures x == a.acc { LiveStays(cfg, s, a, a.session, x); }
    forall c | On(t, c, a.session) ensures t.calls[c].Closing? { CameFrom(cfg, s, a, a.session, c); }
  }

  lemma RevokeEnds(cfg: Config, s: Db, a: Action, session: string)
    requires Inv(cfg, s) && Enabled(s, a) && a.LogoutRevoke? && a.o != Refused
    requires Ended(s, session, Some(s.calls[a.call].acc))
    ensures Ended(Do(cfg, s, a), session, None)
  {
    EndedStays(cfg, s, a, session, Some(s.calls[a.call].acc));
    RevokedNow(cfg, s, a, session);
  }

  /**
   * A Logout whose two writes take effect, that starts when no Refresh or Login of the session is under way and names
   * the only token that is live, leaves none of the session live at any later time, whatever calls come after it.
   */
  lemma LogoutEndsSession(
    cfg: Config, states: seq<Db>, acts: seq<Action>, i: nat, j: nat, n: nat, session: string, x: string, y: string)
    requires Run(cfg, states, acts) && i < j < |acts| && j < n < |states|
    requires acts[i].LogoutDelete? && acts[i].session == session && acts[i].acc == x && acts[i].o == Done
    requires Quiet(states[i], session, x)
    requires acts[j].LogoutRevoke? && acts[j].call == acts[i].call && acts[j].o != Refused
    requires forall k :: i < k < j ==> !Moves(acts[k], acts[i].call)
    ensures !Live(states[n], session, y)
  {
    var c := acts[i].call;
    InvFollows(cfg, states, acts, i);
    InvFollows(cfg, states, acts, j);
    assert StepAt(cfg, states, acts, i) && StepAt(cfg, states, acts, j);
    DeleteEnds(cfg, states[i], acts[i]);
    EndedForever(cfg, states, acts, i + 1, j, session, Some(x));
    CallWaits(cfg, states, acts, i + 1, j, c);
    RevokeEnds(cfg, states[j], acts[j], session);
    EndedForever(cfg, states, acts, j + 1, n, session, None);
  }
}
