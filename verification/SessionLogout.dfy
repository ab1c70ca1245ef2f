/** What a Logout leaves behind when a Refresh of the same session is under way. */
module SessionLogout {
  import opened Common
  import opened Sessions
  import opened SessionOverlap

  /** The call `p` refreshes the session and returns `y`; the call `q` logs it out, naming `x`. */
  datatype Race = Race(session: string, p: nat, q: nat, t: Times, y: string, del: nat, revoke: nat, x: string)

  predicate LogsOut(acts: seq<Action>, w: Race) {
    && w.del < w.revoke < |acts|
    && acts[w.del] == LogoutDelete(w.q, w.session, w.x, Done) && acts[w.revoke] == LogoutRevoke(w.q, Done)
  }

  predicate OwnLogoutStep(acts: seq<Action>, w: Race, i: nat)
    requires i < |acts|
  {
    Moves(acts[i], w.q) ==> i == w.del || i == w.revoke
  }

  function DuoOf(w: Race): Duo {
    Duo(w.session, w.p, w.q)
  }

  /**
   * From a state with no call on the session, one Refresh and one Logout work on it, in any interleaving, and both
   * succeed; the Logout names the token that is current when it deletes the entry.
   */
  ghost predicate IsRace(cfg: Config, states: seq<Db>, acts: seq<Action>, w: Race) {
    && OnlyTwo(cfg, states, acts, DuoOf(w)) && SessionOk(states[0], w.session)
    && Refreshes(acts, w.session, w.p, w.t, w.y) && LogsOut(acts, w)
    && (forall i {:trigger OwnLogoutStep(acts, w, i)} :: 0 <= i < |acts| ==> OwnLogoutStep(acts, w, i))
    && w.session in states[w.del].refs && states[w.del].refs[w.session].acc == w.x
  }

  /** What the Logout revokes. */
  lemma LogoutCall(cfg: Config, states: seq<Db>, acts: seq<Action>, w: Race)
    requires IsRace(cfg, states, acts, w)
    ensures w.q in states[w.revoke].calls && states[w.revoke].calls[w.q] == Closing(w.session, w.x)
  {
    assert StepAt(cfg, states, acts, w.del);
    forall k | w.del + 1 <= k < w.revoke ensures !Moves(acts[k], w.q) { assert OwnLogoutStep(acts, w, k); }
    CallWaits(cfg, states, acts, w.del + 1, w.revoke, w.q);
  }

  /** The refresh entry changes only when the Refresh stores or the Logout deletes. */
  lemma EntryKeeps(cfg: Config, states: seq<Db>, acts: seq<Action>, w: Race, i: nat, j: nat)
    requires IsRace(cfg, states, acts, w) && i <= j < |states|
    requires !(i <= w.t.store < j) && !(i <= w.del < j)
    ensures w.session in states[i].refs <==> w.session in states[j].refs
    ensures w.session in states[j].refs ==> states[j].refs[w.session] == states[i].refs[w.session]
  {
    forall k | i <= k < j ensures !WritesEntry(acts, DuoOf(w), k) {
      assert OwnStep(acts, w.p, w.t, k) && OwnLogoutStep(acts, w, k);
    }
    EntryWaits(cfg, states, acts, DuoOf(w), i, j);
  }

  /** The Refresh reads before the Logout deletes, and the Logout names its token exactly if it was stored before. */
  lemma WhoReadsWhat(cfg: Config, states: seq<Db>, acts: seq<Action>, w: Race)
    requires IsRace(cfg, states, acts, w)
    ensures w.session in states[w.t.get].refs
    ensures w.t.get < w.del && states[w.t.get].refs[w.session].acc == states[0].refs[w.session].acc != w.y
    ensures w.x == if w.t.store < w.del then w.y else states[0].refs[w.session].acc
  {
    RefreshCall(cfg, states, acts, w.session, w.p, w.t, w.y);
    var c := states[0].refs[w.session].acc;
    assert StepAt(cfg, states, acts, w.t.store) && StepAt(cfg, states, acts, w.del);
    IdsStay(cfg, states, acts, 0, w.t.mint, c);
    assert Minted(states[0], w.session, c);
    if w.del < w.t.get {
      EntryKeeps(cfg, states, acts, w, w.del + 1, w.t.get);
    }
    EntryKeeps(cfg, states, acts, w, 0, w.t.get);
    if w.t.store < w.del {
      EntryKeeps(cfg, states, acts, w, w.t.store + 1, w.del);
    } else {
      EntryKeeps(cfg, states, acts, w, 0, w.del);
    }
  }

  /** Only the Logout can revoke the new token, and it does so exactly if it names it. */
  lemma NewTokenRevokedIff(cfg: Config, states: seq<Db>, acts: seq<Action>, w: Race)
    requires IsRace(cfg, states, acts, w)
    ensures (exists k: nat :: k < |acts| && RevokedAt(states, acts, w.y, k)) <==> w.x == w.y
  {
    LogoutCall(cfg, states, acts, w);
    RefreshCall(cfg, states, acts, w.session, w.p, w.t, w.y);
    WhoReadsWhat(cfg, states, acts, w);
    assert w.x == w.y ==> RevokedAt(states, acts, w.y, w.revoke);
    forall k: nat | k < |acts| && RevokedAt(states, acts, w.y, k) ensures w.x == w.y {
      RevokerIsOneOfTwo(cfg, states, acts, DuoOf(w), w.t, w.y, k);
      assert OwnStep(acts, w.p, w.t, k) && OwnLogoutStep(acts, w, k);
    }
  }

  /** What is stored during the race is the new token. */
  lemma NewlyLiveIsNew(cfg: Config, states: seq<Db>, acts: seq<Action>, w: Race, i: nat)
    requires IsRace(cfg, states, acts, w) && i < |acts| && acts[i].Store? && On(states[i], acts[i].call, w.session)
    ensures states[i].calls[acts[i].call] == Storing(w.session, w.y)
  {
    assert StepAt(cfg, states, acts, i);
    NoThirdCall(cfg, states, acts, DuoOf(w), i, acts[i].call);
    assert OwnStep(acts, w.p, w.t, i) && OwnLogoutStep(acts, w, i);
    RefreshCall(cfg, states, acts, w.session, w.p, w.t, w.y);
  }

  /** A token that is live during the race is the new one, or was live before. */
  lemma {:induction false} LiveComesFrom(cfg: Config, states: seq<Db>, acts: seq<Action>, w: Race, i: nat, z: string)
    requires IsRace(cfg, states, acts, w) && i < |states| && Live(states[i], w.session, z)
    ensures z == w.y || Live(states[0], w.session, z)
  {
    if i == 0 {
    } else {
      InvFollows(cfg, states, acts, i - 1);
      assert StepAt(cfg, states, acts, i - 1);
      LiveStays(cfg, states[i - 1], acts[i - 1], w.session, z);
      if Live(states[i - 1], w.session, z) {
        LiveComesFrom(cfg, states, acts, w, i - 1, z);
      } else {
        NewlyLiveIsNew(cfg, states, acts, w, i - 1);
      }
    }
  }

  /** The token that was current before is revoked by the Refresh. */
  lemma OldTokenDies(cfg: Config, states: seq<Db>, acts: seq<Action>, w: Race, z: string)
    requires IsRace(cfg, states, acts, w) && Live(states[0], w.session, z)
    ensures !Live(states[|acts|], w.session, z)
  {
    WhoReadsWhat(cfg, states, acts, w);
    RefreshCall(cfg, states, acts, w.session, w.p, w.t, w.y);
    assert StepAt(cfg, states, acts, w.t.revoke);
    BlackStep(cfg, states[w.t.revoke], acts[w.t.revoke], z);
    IdsStay(cfg, states, acts, w.t.revoke + 1, |acts|, z);
    InvFollows(cfg, states, acts, |acts|);
    RevokedIsDead(cfg, states[|acts|], w.session, z);
  }

  ghost predicate SomeLive(s: Db, session: string) {
    exists z :: Live(s, session, z)
  }

  /**
   * After a successful Logout and a successful Refresh of one session, before the Refresh's token expires, some token
   * of the session is live if and only if the Refresh had read the entry before the Logout deleted it, and stored its
   * own after.
   */
  lemma LiveAfterLogoutIff(cfg: Config, states: seq<Db>, acts: seq<Action>, w: Race)
    requires IsRace(cfg, states, acts, w)
    ensures Minted(states[|acts|], w.session, w.y)
    ensures states[|acts|].now < states[|acts|].minted[w.y].exp ==>
      (SomeLive(states[|acts|], w.session) <==> w.t.get < w.del < w.t.store)
  {
    var n := |acts|;
    NewTokenLivesIff(cfg, states, acts, DuoOf(w), w.t, w.y);
    NewTokenRevokedIff(cfg, states, acts, w);
    WhoReadsWhat(cfg, states, acts, w);
    assert acts[w.del] != acts[w.t.store];
    forall z | Live(states[n], w.session, z) ensures z == w.y {
      LiveComesFrom(cfg, states, acts, w, n, z);
      if Live(states[0], w.session, z) { OldTokenDies(cfg, states, acts, w, z); }
    }
  }

  // ---- The failing schedule --------------------------------------------------------------------

  /** A Refresh reads; a whole Logout of its session succeeds; the Refresh goes on and succeeds too. */
  function LateRefresh(session: string, x: string, y: string): seq<Action> {
    [RefreshGet(0, session), LogoutDelete(1, session, x, Done), LogoutRevoke(1, Done),
     RefreshRevoke(0, Done), RefreshMint(0, y), Store(0, Done)]
  }

  /** The first four steps: the Refresh has revoked the old token, and the entry is gone. */
  lemma UntilRevoked(cfg: Config, s: Db, session: string, x: string) returns (a: Db, b: Db, c: Db, d: Db)
    requires s.calls == map[] && Present(s, session) && s.refs[session].acc == x && Minted(s, session, x)
    ensures Step(cfg, s, RefreshGet(0, session), a) && Step(cfg, a, LogoutDelete(1, session, x, Done), b)
    ensures Step(cfg, b, LogoutRevoke(1, Done), c) && Step(cfg, c, RefreshRevoke(0, Done), d)
    ensures d.calls == map[0 := Revoked(session)] && d.minted == s.minted && d.now == s.now && d.black.Keys == s.black.Keys + {x}
  {
    a := Do(cfg, s, RefreshGet(0, session));
    b := Do(cfg, a, LogoutDelete(1, session, x, Done));
    c := Do(cfg, b, LogoutRevoke(1, Done));
    assert c.calls == map[0 := Fetched(session, x)];
    d := Do(cfg, c, RefreshRevoke(0, Done));
  }

  /** The last two steps: mint and store. */
  lemma MintAndStore(cfg: Config, d: Db, session: string, y: string) returns (e: Db, f: Db)
    requires d.calls == map[0 := Revoked(session)] && y !in d.minted && y !in d.black
    requires cfg.access >= SECOND && cfg.refresh > 0
    ensures Step(cfg, d, RefreshMint(0, y), e) && Step(cfg, e, Store(0, Done), f)
    ensures Live(f, session, y) && Present(f, session)
  {
    e := Do(cfg, d, RefreshMint(0, y));
    f := Do(cfg, e, Store(0, Done));
  }

  /** A wholly successful Logout does not end the session when a Refresh had read its entry before. */
  lemma LateRefreshRevives(cfg: Config, s: Db, session: string, x: string, y: string) returns (states: seq<Db>)
    requires Inv(cfg, s) && s.calls == map[] && Present(s, session) && s.refs[session].acc == x && y !in s.minted
    requires cfg.access >= SECOND && cfg.refresh > 0
    ensures Follows(cfg, states, LateRefresh(session, x, y)) && states[0] == s
    ensures Live(states[6], session, y) && Present(states[6], session)
  {
    assert Minted(s, session, x);
    assert y in s.black ==> Outlives(s, y);
    var a, b, c, d := UntilRevoked(cfg, s, session, x);
    var e, f := MintAndStore(cfg, d, session, y);
    states := [s, a, b, c, d, e, f];
    var acts := LateRefresh(session, x, y);
    forall i | 0 <= i < |acts| ensures StepAt(cfg, states, acts, i) {
      assert i == 0 || i == 1 || i == 2 || i == 3 || i == 4 || i == 5;
    }
  }
}
