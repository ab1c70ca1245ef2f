/** Login, Refresh and Logout over the session cache, one call at a time; time passes within and between calls. */
module SessionService {
  import opened Common
  import opened Sessions

  datatype AuthError = InvalidPassword | Unauthorized | Internal

  /** `t` is reached from `s` by the steps of `trace`. */
  ghost predicate Path(cfg: Config, s: Db, trace: seq<Action>, t: Db) {
    exists states :: Follows(cfg, states, trace) && states[0] == s && states[|trace|] == t
  }

  lemma Steps(cfg: Config, states: seq<Db>, trace: seq<Action>)
    requires |states| == |trace| + 1
    requires forall i :: 0 <= i < |trace| ==> StepAt(cfg, states, trace, i)
    ensures Path(cfg, states[0], trace, states[|trace|])
  {}

  lemma NoStep(cfg: Config, s: Db)
    ensures Path(cfg, s, [], s)
  {
    Steps(cfg, [s], []);
  }

  lemma OneStep(cfg: Config, s: Db, a: Action, t: Db)
    requires Enabled(s, a) && t == Do(cfg, s, a)
    ensures Path(cfg, s, [a], t)
  {
    Steps(cfg, [s, t], [a]);
  }

  /** Two steps with time passing in between. */
  lemma TwoSteps(cfg: Config, s: Db, a: Action, d: nat, b: Action, t: Db)
    requires Enabled(s, a) && Enabled(Later(Do(cfg, s, a), d), b) && t == Do(cfg, Later(Do(cfg, s, a), d), b)
    ensures Path(cfg, s, [a, Tick(d), b], t)
  {
    Steps(cfg, [s, Do(cfg, s, a), Later(Do(cfg, s, a), d), t], [a, Tick(d), b]);
  }

  function Later(s: Db, d: nat): Db {
    s.(now := s.now + d)
  }

  lemma Joined(cfg: Config, s: Db, before: seq<Action>, m: Db, after: seq<Action>, t: Db)
    requires Path(cfg, s, before, m) && Path(cfg, m, after, t)
    ensures Path(cfg, s, before + after, t)
  {
    var first :| Follows(cfg, first, before) && first[0] == s && first[|before|] == m;
    var second :| Follows(cfg, second, after) && second[0] == m && second[|after|] == t;
    var states, trace := first + second[1..], before + after;
    forall i | 0 <= i < |trace| ensures StepAt(cfg, states, trace, i) {
      if i < |before| {
        assert StepAt(cfg, first, before, i);
      } else {
        assert StepAt(cfg, second, after, i - |before|);
      }
    }
    Steps(cfg, states, trace);
  }

  /** Between calls: every session has at most one live token, the one its refresh entry names. */
  ghost predicate AllOk(cfg: Config, s: Db) {
    Inv(cfg, s) && forall r {:trigger SessionOk(s, r)} :: SessionOk(s, r)
  }

  lemma LaterStaysOk(cfg: Config, s: Db, d: nat)
    requires AllOk(cfg, s)
    ensures AllOk(cfg, Later(s, d))
  {
    AllStayOk(cfg, s, Tick(d));
  }

  lemma AllStayOk(cfg: Config, s: Db, a: Action)
    requires AllOk(cfg, s) && Enabled(s, a) && (a.RefreshGet? || a.LogoutDelete? ==> s.calls == map[])
    ensures AllOk(cfg, Do(cfg, s, a))
  {
    InvStays(cfg, s, a);
    forall r ensures SessionOk(Do(cfg, s, a), r) { SessionStaysOk(cfg, s, a, r); }
  }

  function LoginTrace(session: string, acc: string, d: nat, stored: Outcome): seq<Action> {
    [LoginMint(0, session, acc), Tick(d), Store(0, stored)]
  }

  /** How long a Refresh waits before it revokes, before it mints, and before it stores. */
  datatype Waits = Waits(revoke: nat, mint: nat, store: nat)

  function RefreshTrace(session: string, acc: string, d: Waits, revoked: Outcome, stored: Outcome): seq<Action> {
    var read := [RefreshGet(0, session), Tick(d.revoke), RefreshRevoke(0, revoked)];
    if revoked == Done then read + ([Tick(d.mint)] + [RefreshMint(0, acc), Tick(d.store), Store(0, stored)]) else read
  }

  function LogoutTrace(session: string, acc: string, d: nat, deleted: Outcome, revoked: Outcome): seq<Action> {
    if deleted == Done then [LogoutDelete(0, session, acc, Done), Tick(d), LogoutRevoke(0, revoked)]
    else [LogoutDelete(0, session, acc, deleted)]
  }

  /** The database after a token for `acc` is minted now and its entry stored `d` later. */
  function Stored(cfg: Config, s: Db, session: string, acc: string, d: nat, stored: Outcome): Db {
    s.(now := s.now + d,
       refs := if stored == Refused then s.refs else s.refs[session := Entry(acc, s.now + d + cfg.refresh)],
       minted := s.minted[acc := Token(session, Expiry(cfg, s.now))],
       returned := if stored == Done then s.returned + {acc} else s.returned)
  }

  /** The database after `acc` is blacklisted `d` later. */
  function Blacklisted(cfg: Config, s: Db, acc: string, d: nat, o: Outcome): Db {
    Later(s, d).(black := Revoke(cfg, Later(s, d), acc, o))
  }

  lemma LoginPath(cfg: Config, s: Db, session: string, acc: string, d: nat, stored: Outcome)
    requires AllOk(cfg, s) && s.calls == map[] && session !in s.sessions && acc !in s.minted
    ensures var t := Stored(cfg, s.(sessions := s.sessions + {session}), session, acc, d, stored);
      Path(cfg, s, LoginTrace(session, acc, d, stored), t) && AllOk(cfg, t)
  {
    var t := Stored(cfg, s.(sessions := s.sessions + {session}), session, acc, d, stored);
    var m := Do(cfg, s, LoginMint(0, session, acc));
    assert m.calls - {0} == map[];
    TwoSteps(cfg, s, LoginMint(0, session, acc), d, Store(0, stored), t);
    AllStayOk(cfg, s, LoginMint(0, session, acc));
    LaterStaysOk(cfg, m, d);
    AllStayOk(cfg, Later(m, d), Store(0, stored));
  }

  lemma RevokePath(cfg: Config, s: Db, session: string, d: nat, o: Outcome)
    requires AllOk(cfg, s) && s.calls == map[] && Present(s, session)
    ensures
      var t := Blacklisted(cfg, s, s.refs[session].acc, d, o).(calls := if o == Done then map[0 := Revoked(session)] else map[]);
      Path(cfg, s, [RefreshGet(0, session), Tick(d), RefreshRevoke(0, o)], t) && AllOk(cfg, t)
  {
    var t := Blacklisted(cfg, s, s.refs[session].acc, d, o).(calls := if o == Done then map[0 := Revoked(session)] else map[]);
    var m := Do(cfg, s, RefreshGet(0, session));
    assert m.calls - {0} == map[];
    TwoSteps(cfg, s, RefreshGet(0, session), d, RefreshRevoke(0, o), t);
    AllStayOk(cfg, s, RefreshGet(0, session));
    LaterStaysOk(cfg, m, d);
    AllStayOk(cfg, Later(m, d), RefreshRevoke(0, o));
  }

  lemma MintPath(cfg: Config, s: Db, session: string, acc: string, d: nat, o: Outcome)
    requires AllOk(cfg, s) && s.calls == map[0 := Revoked(session)] && acc !in s.minted
    ensures var t := Stored(cfg, s, session, acc, d, o).(calls := map[]);
      && Path(cfg, s, [RefreshMint(0, acc), Tick(d), Store(0, o)], t) && AllOk(cfg, t) && OnlyAfter(t, session, acc, o)
  {
    var t := Stored(cfg, s, session, acc, d, o).(calls := map[]);
    var m := Do(cfg, s, RefreshMint(0, acc));
    assert m.calls - {0} == map[];
    TwoSteps(cfg, s, RefreshMint(0, acc), d, Store(0, o), t);
    AllStayOk(cfg, s, RefreshMint(0, acc));
    LaterStaysOk(cfg, m, d);
    AllStayOk(cfg, Later(m, d), Store(0, o));
    assert SessionOk(t, session);
  }

  /** After a store that succeeded, no token but the new one can be live. */
  ghost predicate OnlyAfter(t: Db, session: string, acc: string, o: Outcome) {
    o == Done ==> forall x :: Live(t, session, x) ==> x == acc
  }

  /** The second half of a Refresh, with the wait before it. */
  lemma WaitAndMint(cfg: Config, s: Db, session: string, acc: string, mint: nat, store: nat, o: Outcome)
    requires AllOk(cfg, s) && s.calls == map[0 := Revoked(session)] && acc !in s.minted
    ensures var t := Stored(cfg, Later(s, mint), session, acc, store, o).(calls := map[]);
      && Path(cfg, s, [Tick(mint)] + [RefreshMint(0, acc), Tick(store), Store(0, o)], t)
      && AllOk(cfg, t) && OnlyAfter(t, session, acc, o)
  {
    LaterStaysOk(cfg, s, mint);
    OneStep(cfg, s, Tick(mint), Later(s, mint));
    MintPath(cfg, Later(s, mint), session, acc, store, o);
    Joined(cfg, s, [Tick(mint)], Later(s, mint), [RefreshMint(0, acc), Tick(store), Store(0, o)],
           Stored(cfg, Later(s, mint), session, acc, store, o).(calls := map[]));
  }

  /** The database after a Refresh whose blacklist write succeeded. */
  function Refreshed(cfg: Config, s: Db, session: string, acc: string, d: Waits, o: Outcome): Db
    requires session in s.refs
  {
    Stored(cfg, Later(Blacklisted(cfg, s, s.refs[session].acc, d.revoke, Done), d.mint), session, acc, d.store, o)
  }

  /** The calls in flight do not matter to what a Refresh writes. */
  lemma CallsApart(cfg: Config, s: Db, session: string, acc: string, d: Waits, o: Outcome)
    requires s.calls == map[] && session in s.refs
    ensures
      var half := Blacklisted(cfg, s, s.refs[session].acc, d.revoke, Done).(calls := map[0 := Revoked(session)]);
      Stored(cfg, Later(half, d.mint), session, acc, d.store, o).(calls := map[]) == Refreshed(cfg, s, session, acc, d, o)
  {}

  lemma RefreshPath(cfg: Config, s: Db, session: string, acc: string, d: Waits, o: Outcome)
    requires AllOk(cfg, s) && s.calls == map[] && Present(s, session) && acc !in s.minted
    ensures var t := Refreshed(cfg, s, session, acc, d, o);
      && Path(cfg, s, RefreshTrace(session, acc, d, Done, o), t) && AllOk(cfg, t) && OnlyAfter(t, session, acc, o)
  {
    var half := Blacklisted(cfg, s, s.refs[session].acc, d.revoke, Done).(calls := map[0 := Revoked(session)]);
    var t := Refreshed(cfg, s, session, acc, d, o);
    RevokePath(cfg, s, session, d.revoke, Done);
    WaitAndMint(cfg, half, session, acc, d.mint, d.store, o);
    CallsApart(cfg, s, session, acc, d, o);
    Joined(cfg, s, [RefreshGet(0, session), Tick(d.revoke), RefreshRevoke(0, Done)], half,
           [Tick(d.mint)] + [RefreshMint(0, acc), Tick(d.store), Store(0, o)], t);
  }

  lemma LogoutPath(cfg: Config, s: Db, session: string, acc: string, d: nat, o: Outcome)
    requires AllOk(cfg, s) && s.calls == map[] && Minted(s, session, acc)
    ensures var t := Blacklisted(cfg, s.(refs := s.refs - {session}), acc, d, o);
      && Path(cfg, s, LogoutTrace(session, acc, d, Done, o), t) && AllOk(cfg, t)
      && (o == Done && IsCurrent(s, session, acc) ==> forall x :: !Live(t, session, x))
  {
    var t := Blacklisted(cfg, s.(refs := s.refs - {session}), acc, d, o);
    var a, b := LogoutDelete(0, session, acc, Done), LogoutRevoke(0, o);
    var m := Do(cfg, s, a);
    assert m.calls - {0} == map[];
    TwoSteps(cfg, s, a, d, b, t);
    AllStayOk(cfg, s, a);
    LaterStaysOk(cfg, m, d);
    AllStayOk(cfg, Later(m, d), b);
    if o == Done && IsCurrent(s, session, acc) {
      LogoutLeavesNone(cfg, s, session, acc, d);
    }
  }

  /** The access token is live, or the session's entry names it. */
  predicate IsCurrent(s: Db, session: string, acc: string) {
    Live(s, session, acc) || (session in s.refs && s.refs[session].acc == acc)
  }

  lemma LogoutLeavesNone(cfg: Config, s: Db, session: string, acc: string, d: nat)
    requires AllOk(cfg, s) && s.calls == map[] && Minted(s, session, acc) && IsCurrent(s, session, acc)
    ensures
      var m := Later(Do(cfg, s, LogoutDelete(0, session, acc, Done)), d);
      forall x :: !Live(Do(cfg, m, LogoutRevoke(0, Done)), session, x)
  {
    var a, b := LogoutDelete(0, session, acc, Done), LogoutRevoke(0, Done);
    var m := Do(cfg, s, a);
    SerialIsQuiet(s, session, acc);
    AllStayOk(cfg, s, a);
    DeleteEnds(cfg, s, a);
    EndedStays(cfg, m, Tick(d), session, Some(acc));
    LaterStaysOk(cfg, m, d);
    RevokeEnds(cfg, Later(m, d), b, session);
  }

  class UserService {
    const cfg: Config
    var now: int
    var refs: map<string, Entry>
    var black: map<string, int>
    ghost var sessions: set<string>
    ghost var minted: map<string, Token>
    ghost var returned: set<string>

    ghost function View(): Db
      reads this
    {
      Db(now, sessions, refs, black, minted, returned, map[])
    }

    ghost predicate Valid()
      reads this
    {
      AllOk(cfg, View())
    }

    constructor (cfg: Config, now: int)
      ensures Valid() && this.cfg == cfg && View() == Db(now, {}, map[], map[], map[], {}, map[])
    {
      this.cfg := cfg;
      this.now := now;
      refs, black, sessions, minted, returned := map[], map[], {}, map[], {};
    }

    /** The cache writes; each ends as the cache decides. */
    method PutEntry(session: string, acc: string, o: Outcome)
      modifies this`refs
      ensures refs == if o == Refused then old(refs) else old(refs)[session := Entry(acc, now + cfg.refresh)]
    {
      if o != Refused {
        refs := refs[session := Entry(acc, now + cfg.refresh)];
      }
    }

    method Blacklist(acc: string, o: Outcome)
      modifies this`black
      ensures black == Revoke(cfg, old(View()), acc, o)
    {
      if o != Refused {
        black := black[acc := now + cfg.access];
      }
    }

    /** Time passes. */
    method Pass(d: nat)
      requires Valid()
      modifies this`now
      ensures Valid() && View() == Later(old(View()), d)
    {
      LaterStaysOk(cfg, View(), d);
      now := now + d;
    }

    method Login(passwordOk: bool, session: string, acc: string, wait: nat, stored: Outcome)
      returns (r: Result<(string, string), AuthError>, ghost trace: seq<Action>)
      requires Valid() && session !in sessions && acc !in minted
      modifies this
      ensures Valid() && Path(cfg, old(View()), trace, View())
      ensures trace == if passwordOk then LoginTrace(session, acc, wait, stored) else []
      ensures r == if !passwordOk then Failure(InvalidPassword)
                   else if stored == Done then Success((acc, session)) else Failure(Internal)
      ensures r.Success? ==> refs == old(refs)[session := Entry(acc, now + cfg.refresh)] && black == old(black)
      ensures r.Success? ==> now == old(now) + wait && Minted(View(), session, acc)
      ensures r.Success? ==> now + cfg.access - wait - 1_000_000_000 < minted[acc].exp <= now + cfg.access - wait
      ensures r.Success? && cfg.access >= wait + 1_000_000_000 ==> Live(View(), session, acc)
    {
      ghost var s := View();
      if !passwordOk {
        NoStep(cfg, s);
        return Failure(InvalidPassword), [];
      }
      LoginPath(cfg, s, session, acc, wait, stored);
      trace := LoginTrace(session, acc, wait, stored);
      sessions := sessions + {session};
      var issued := Issue(session, acc, wait, stored);
      r := if issued.Success? then Success((acc, session)) else Failure(Internal);
    }

    /** Whatever fails on the way, the session is left with at most one live token: none, the old one, or the new one. */
    method Refresh(session: string, acc: string, readFails: bool, waits: Waits, revoked: Outcome, stored: Outcome)
      returns (r: Result<string, AuthError>, ghost trace: seq<Action>)
      requires Valid() && acc !in minted
      modifies this
      ensures Valid() && Path(cfg, old(View()), trace, View())
      ensures trace == if Present(old(View()), session) && !readFails then RefreshTrace(session, acc, waits, revoked, stored) else []
      ensures r == if !Present(old(View()), session) || readFails then Failure(Unauthorized)
                   else if revoked == Done && stored == Done then Success(acc) else Failure(Internal)
      ensures r.Success? ==> forall x :: Live(View(), session, x) ==> x == acc
      ensures r.Success? ==> refs == old(refs)[session := Entry(acc, now + cfg.refresh)]
      ensures r.Success? ==> black == old(black)[old(refs)[session].acc := old(now) + waits.revoke + cfg.access]
      ensures r.Success? ==> now == old(now) + waits.revoke + waits.mint + waits.store && Minted(View(), session, acc)
      ensures r.Success? ==>
        now + cfg.access - waits.store - 1_000_000_000 < minted[acc].exp <= now + cfg.access - waits.store
      ensures r.Success? && cfg.access >= waits.store + 1_000_000_000 ==> Live(View(), session, acc)
    {
      ghost var s := View();
      if readFails || session !in refs || now >= refs[session].until {
        NoStep(cfg, s);
        return Failure(Unauthorized), [];
      }
      trace := RefreshTrace(session, acc, waits, revoked, stored);
      RevokeLater(refs[session].acc, waits.revoke, revoked);
      if revoked != Done {
        RevokePath(cfg, s, session, waits.revoke, revoked);
        return Failure(Internal), trace;
      }
      r := Reissue(session, acc, waits, stored);
      RefreshPath(cfg, s, session, acc, waits, stored);
    }

    method RevokeLater(acc: string, wait: nat, o: Outcome)
      modifies this
      ensures View() == Blacklisted(cfg, old(View()), acc, wait, o)
    {
      now := now + wait;
      Blacklist(acc, o);
    }

    method Reissue(session: string, acc: string, waits: Waits, stored: Outcome) returns (r: Result<string, AuthError>)
      modifies this
      ensures View() == Stored(cfg, Later(old(View()), waits.mint), session, acc, waits.store, stored)
      ensures r == if stored == Done then Success(acc) else Failure(Internal)
    {
      now := now + waits.mint;
      r := Issue(session, acc, waits.store, stored);
    }

    /** Mints an access token and, after a wait, stores it as the session's current one. */
    method Issue(session: string, acc: string, wait: nat, stored: Outcome) returns (r: Result<string, AuthError>)
      modifies this
      ensures View() == Stored(cfg, old(View()), session, acc, wait, stored)
      ensures r == if stored == Done then Success(acc) else Failure(Internal)
    {
      minted := minted[acc := Token(session, Expiry(cfg, now))];
      now := now + wait;
      PutEntry(session, acc, stored);
      if stored != Done {
        return Failure(Internal);
      }
      returned := returned + {acc};
      r := Success(acc);
    }

    /** Deletes the entry, then, after a wait, blacklists the access id; a failed delete stops it. */
    method Logout(acc: string, session: string, wait: nat, deleted: Outcome, revoked: Outcome)
      returns (r: Result<(), AuthError>, ghost trace: seq<Action>)
      requires Valid() && Minted(View(), session, acc)
      modifies this
      ensures Valid() && Path(cfg, old(View()), trace, View())
      ensures trace == LogoutTrace(session, acc, wait, deleted, revoked)
      ensures r == if deleted == Done && revoked == Done then Success(()) else Failure(Internal)
      ensures r.Success? && IsCurrent(old(View()), session, acc) ==> forall x :: !Live(View(), session, x)
      ensures r.Success? ==> refs == old(refs) - {session} && now == old(now) + wait
      ensures r.Success? ==> black == old(black)[acc := now + cfg.access]
    {
      ghost var s := View();
      trace := LogoutTrace(session, acc, wait, deleted, revoked);
      if deleted != Refused {
        refs := refs - {session};
      }
      if deleted != Done {
        DeleteFails(cfg, s, session, acc, deleted);
        return Failure(Internal), trace;
      }
      RevokeLater(acc, wait, revoked);
      LogoutPath(cfg, s, session, acc, wait, revoked);
      r := if revoked == Done then Success(()) else Failure(Internal);
    }
  }

  lemma DeleteFails(cfg: Config, s: Db, session: string, acc: string, o: Outcome)
    requires AllOk(cfg, s) && s.calls == map[] && Minted(s, session, acc) && o != Done
    ensures var t := s.(refs := if o == Refused then s.refs else s.refs - {session});
      Path(cfg, s, [LogoutDelete(0, session, acc, o)], t) && AllOk(cfg, t)
  {
    var a := LogoutDelete(0, session, acc, o);
    OneStep(cfg, s, a, Do(cfg, s, a));
    AllStayOk(cfg, s, a);
  }
}
