/** Which returned tokens survive when any number of calls of any sessions overlap. */
module SessionMany {
  import opened Sessions
  import opened SessionOverlap

  /** A cache write that takes effect on the session's refresh entry. */
  predicate EntryWrite(s: Db, a: Action, session: string) {
    || (a.Store? && a.o != Refused && On(s, a.call, session))
    || (a.LogoutDelete? && a.o != Refused && a.session == session)
  }

  predicate EntryWrittenAt(states: seq<Db>, acts: seq<Action>, session: string, i: nat) {
    i < |acts| && i < |states| && EntryWrite(states[i], acts[i], session)
  }

  /** The token is stored, and returned, at step `k`. */
  predicate ReturnsAt(states: seq<Db>, acts: seq<Action>, session: string, x: string, k: nat) {
    && k < |acts| && k < |states| && acts[k].Store? && acts[k].o == Done
    && acts[k].call in states[k].calls && states[k].calls[acts[k].call] == Storing(session, x)
  }

  /** A Refresh reads the entry at `g` and, as its next step, revokes what it read at `j`. */
  predicate ReadsAndRevokes(acts: seq<Action>, session: string, g: nat, j: nat) {
    && g < j < |acts| && acts[g].RefreshGet? && acts[g].session == session
    && acts[j].RefreshRevoke? && acts[j].o != Refused && acts[j].call == acts[g].call
    && (forall i :: g < i < j ==> !Moves(acts[i], acts[g].call))
  }

  /** Step `g` comes after step `k`, and before the next write of the entry. */
  predicate BeforeNextWrite(states: seq<Db>, acts: seq<Action>, session: string, k: nat, g: nat) {
    k < g && forall i {:trigger EntryWrittenAt(states, acts, session, i)} :: k < i < g ==> !EntryWrittenAt(states, acts, session, i)
  }

  /** A Logout that names the token revokes it. */
  predicate LogoutRevokes(states: seq<Db>, acts: seq<Action>, x: string, j: nat) {
    RevokedAt(states, acts, x, j) && acts[j].LogoutRevoke?
  }

  // ---- A token is stored once ------------------------------------------------------------------

  predicate Stores(s: Db, c: nat, x: string) {
    c in s.calls && s.calls[c].Storing? && s.calls[c].acc == x
  }

  ghost predicate OneStorer(s: Db, x: string) {
    forall c, d :: Stores(s, c, x) && Stores(s, d, x) ==> c == d
  }

  ghost predicate NoStorer(s: Db, x: string) {
    forall c :: !Stores(s, c, x)
  }

  lemma StorerStep(cfg: Config, s: Db, a: Action, x: string, c: nat)
    requires Inv(cfg, s) && Enabled(s, a) && Stores(Do(cfg, s, a), c, x)
    ensures (Stores(s, c, x) && !(a.Store? && a.call == c)) || (x !in s.minted && (a.LoginMint? || a.RefreshMint?) && a.call == c)
  {}

  lemma StorerIsMinted(cfg: Config, s: Db, x: string, c: nat)
    requires Inv(cfg, s) && Stores(s, c, x)
    ensures Minted(s, s.calls[c].session, x)
  {
    assert CallOk(s, c);
  }

  lemma {:induction false} OneStorerAlways(cfg: Config, states: seq<Db>, acts: seq<Action>, i: nat, x: string)
    requires Follows(cfg, states, acts) && Inv(cfg, states[0]) && x !in states[0].minted && i < |states|
    ensures OneStorer(states[i], x)
  {
    forall c, d | Stores(states[i], c, x) && Stores(states[i], d, x) ensures c == d {
      if i == 0 {
        StorerIsMinted(cfg, states[0], x, c);
      } else {
        OneStorerAlways(cfg, states, acts, i - 1, x);
        SameStorer(cfg, states, acts, i - 1, x, c, d);
      }
    }
  }

  lemma SameStorer(cfg: Config, states: seq<Db>, acts: seq<Action>, i: nat, x: string, c: nat, d: nat)
    requires Follows(cfg, states, acts) && Inv(cfg, states[0]) && i < |acts| && OneStorer(states[i], x)
    requires Stores(states[i + 1], c, x) && Stores(states[i + 1], d, x)
    ensures c == d
  {
    InvFollows(cfg, states, acts, i);
    assert StepAt(cfg, states, acts, i);
    StorerStep(cfg, states[i], acts[i], x, c);
    StorerStep(cfg, states[i], acts[i], x, d);
    if Stores(states[i], c, x) { StorerIsMinted(cfg, states[i], x, c); }
    if Stores(states[i], d, x) { StorerIsMinted(cfg, states[i], x, d); }
  }

  /** A minted token that no call stores is never stored again. */
  lemma {:induction false} NeverStoredAgain(cfg: Config, states: seq<Db>, acts: seq<Action>, i: nat, j: nat, x: string, c: nat)
    requires Follows(cfg, states, acts) && Inv(cfg, states[0]) && i <= j < |states|
    requires x in states[i].minted && NoStorer(states[i], x)
    ensures !Stores(states[j], c, x)
  {
    if i == j {
    } else {
      NeverStoredAgain(cfg, states, acts, i, j - 1, x, c);
      InvFollows(cfg, states, acts, j - 1);
      IdsStay(cfg, states, acts, i, j - 1, x);
      assert StepAt(cfg, states, acts, j - 1);
      if Stores(states[j], c, x) { StorerStep(cfg, states[j - 1], acts[j - 1], x, c); }
    }
  }

  /** A store of the token by a later step is impossible. */
  lemma StoredOnce(cfg: Config, states: seq<Db>, acts: seq<Action>, i: nat, j: nat, x: string)
    requires Follows(cfg, states, acts) && Inv(cfg, states[0]) && x !in states[0].minted && i < |acts| && j < |acts|
    requires acts[i].Store? && Stores(states[i], acts[i].call, x) && acts[j].Store? && Stores(states[j], acts[j].call, x)
    ensures i == j
  {
    if i < j {
      StoredThenGone(cfg, states, acts, i, x);
      NeverStoredAgain(cfg, states, acts, i + 1, j, x, acts[j].call);
    } else if j < i {
      StoredThenGone(cfg, states, acts, j, x);
      NeverStoredAgain(cfg, states, acts, j + 1, i, x, acts[i].call);
    }
  }

  lemma StoredThenGone(cfg: Config, states: seq<Db>, acts: seq<Action>, i: nat, x: string)
    requires Follows(cfg, states, acts) && Inv(cfg, states[0]) && x !in states[0].minted && i < |acts|
    requires acts[i].Store? && Stores(states[i], acts[i].call, x)
    ensures x in states[i + 1].minted && NoStorer(states[i + 1], x)
  {
    InvFollows(cfg, states, acts, i);
    OneStorerAlways(cfg, states, acts, i, x);
    StorerIsMinted(cfg, states[i], x, acts[i].call);
    assert StepAt(cfg, states, acts, i);
    var t := states[i + 1];
    if d: nat :| Stores(t, d, x) {
      StorerStep(cfg, states[i], acts[i], x, d);
    }
  }

  // ---- Who reads the token ---------------------------------------------------------------------

  lemma EntryStep(cfg: Config, s: Db, a: Action, session: string)
    requires Enabled(s, a) && !EntryWrite(s, a, session)
    ensures session in Do(cfg, s, a).refs <==> session in s.refs
    ensures session in s.refs ==> Do(cfg, s, a).refs[session] == s.refs[session]
  {}

  lemma NamedIsMinted(cfg: Config, s: Db, session: string)
    requires Inv(cfg, s) && session in s.refs
    ensures s.refs[session].acc in s.minted
  {
    assert Minted(s, session, s.refs[session].acc);
  }

  lemma FetchedIsMinted(cfg: Config, s: Db, d: nat)
    requires Inv(cfg, s) && d in s.calls && s.calls[d].Fetched?
    ensures s.calls[d].acc in s.minted
  {
    assert CallOk(s, d);
  }

  /** An entry that names a token minted in the run was written when the token was stored, and not since. */
  lemma {:induction false} EntryComesFromStore(
    cfg: Config, states: seq<Db>, acts: seq<Action>, session: string, x: string, k: nat, g: nat)
    requires Follows(cfg, states, acts) && Inv(cfg, states[0]) && x !in states[0].minted && g < |states|
    requires ReturnsAt(states, acts, session, x, k) && session in states[g].refs && states[g].refs[session].acc == x
    ensures BeforeNextWrite(states, acts, session, k, g)
  {
    if g == 0 {
      NamedIsMinted(cfg, states[0], session);
    } else {
      assert StepAt(cfg, states, acts, g - 1);
      if EntryWrittenAt(states, acts, session, g - 1) {
        StoredOnce(cfg, states, acts, g - 1, k, x);
      } else {
        EntryStep(cfg, states[g - 1], acts[g - 1], session);
        EntryComesFromStore(cfg, states, acts, session, x, k, g - 1);
      }
    }
  }

  /** What a call has fetched it read in its last step. */
  lemma {:induction false} FetchedFromGet(cfg: Config, states: seq<Db>, acts: seq<Action>, d: nat, x: string, j: nat) returns (g: nat)
    requires Follows(cfg, states, acts) && Inv(cfg, states[0]) && x !in states[0].minted && j < |states|
    requires d in states[j].calls && states[j].calls[d].Fetched? && states[j].calls[d].acc == x
    ensures g < j && acts[g] == RefreshGet(d, states[j].calls[d].session) && forall i :: g < i < j ==> !Moves(acts[i], d)
    ensures acts[g].session in states[g].refs && states[g].refs[acts[g].session].acc == x
  {
    if j == 0 {
      FetchedIsMinted(cfg, states[0], d);
      assert false;
    } else {
      assert StepAt(cfg, states, acts, j - 1);
      if Moves(acts[j - 1], d) {
        g := j - 1;
      } else {
        g := FetchedFromGet(cfg, states, acts, d, x, j - 1);
      }
    }
  }

  /** The session of a minted token is the same in all states of a run. */
  lemma SameSession(cfg: Config, states: seq<Db>, acts: seq<Action>, i: nat, p: string, j: nat, q: string, x: string)
    requires Follows(cfg, states, acts) && i < |states| && j < |states| && Minted(states[i], p, x) && Minted(states[j], q, x)
    ensures p == q
  {
    if i <= j {
      IdsStay(cfg, states, acts, i, j, x);
    } else {
      IdsStay(cfg, states, acts, j, i, x);
    }
  }

  lemma RefreshThatRevokes(cfg: Config, states: seq<Db>, acts: seq<Action>, session: string, x: string, k: nat, j: nat) returns (g: nat)
    requires Follows(cfg, states, acts) && Inv(cfg, states[0]) && x !in states[0].minted
    requires ReturnsAt(states, acts, session, x, k) && RevokedAt(states, acts, x, j) && acts[j].RefreshRevoke?
    ensures ReadsAndRevokes(acts, session, g, j) && BeforeNextWrite(states, acts, session, k, g)
  {
    var d := acts[j].call;
    assert StepAt(cfg, states, acts, j);
    g := FetchedFromGet(cfg, states, acts, d, x, j);
    InvFollows(cfg, states, acts, g);
    InvFollows(cfg, states, acts, k);
    StorerIsMinted(cfg, states[k], x, acts[k].call);
    assert Minted(states[g], acts[g].session, x);
    SameSession(cfg, states, acts, g, acts[g].session, k, session, x);
    EntryComesFromStore(cfg, states, acts, session, x, k, g);
  }

  // ---- Conversely ------------------------------------------------------------------------------

  lemma {:induction false} EntryUntilNextWrite(cfg: Config, states: seq<Db>, acts: seq<Action>, session: string, x: string, k: nat, g: nat)
    requires Follows(cfg, states, acts) && ReturnsAt(states, acts, session, x, k) && g < |states|
    requires BeforeNextWrite(states, acts, session, k, g)
    ensures session in states[g].refs && states[g].refs[session].acc == x
  {
    assert StepAt(cfg, states, acts, g - 1);
    if g == k + 1 {
    } else {
      assert !EntryWrittenAt(states, acts, session, g - 1);
      EntryStep(cfg, states[g - 1], acts[g - 1], session);
      EntryUntilNextWrite(cfg, states, acts, session, x, k, g - 1);
    }
  }

  lemma ReaderRevokes(cfg: Config, states: seq<Db>, acts: seq<Action>, session: string, x: string, k: nat, g: nat, j: nat)
    requires Follows(cfg, states, acts) && ReturnsAt(states, acts, session, x, k)
    requires ReadsAndRevokes(acts, session, g, j) && BeforeNextWrite(states, acts, session, k, g)
    ensures RevokedAt(states, acts, x, j)
  {
    assert StepAt(cfg, states, acts, g) && StepAt(cfg, states, acts, j);
    EntryUntilNextWrite(cfg, states, acts, session, x, k, g);
    CallWaits(cfg, states, acts, g + 1, j, acts[g].call);
  }

  predicate TakenBy(states: seq<Db>, acts: seq<Action>, session: string, k: nat, g: nat, j: nat) {
    ReadsAndRevokes(acts, session, g, j) && BeforeNextWrite(states, acts, session, k, g)
  }

  /**
   * However many calls overlap, whether they end or not: a token that is returned at step `k` is live at step `n`,
   * before it expires, if and only if no Refresh that read the entry between then and the next write of it has gone on
   * to revoke it, and no Logout that names the token has.
   */
  lemma SurvivesIff(cfg: Config, states: seq<Db>, acts: seq<Action>, session: string, x: string, k: nat, n: nat)
    requires Follows(cfg, states, acts) && Inv(cfg, states[0]) && x !in states[0].minted
    requires ReturnsAt(states, acts, session, x, k) && k < n < |states|
    ensures Minted(states[n], session, x)
    ensures states[n].now < states[n].minted[x].exp ==>
      (Live(states[n], session, x) <==>
        && (forall g: nat, j: nat :: j < n ==> !TakenBy(states, acts, session, k, g, j))
        && (forall j: nat :: j < n ==> !LogoutRevokes(states, acts, x, j)))
  {
    ReturnedStays(cfg, states, acts, session, x, k, n);
    if states[n].now < states[n].minted[x].exp {
      assert x in states[0].black ==> Outlives(states[0], x);
      LiveIffUnrevoked(cfg, states, acts, n, session, x);
      forall g: nat, j: nat | j < n && TakenBy(states, acts, session, k, g, j) ensures RevokedAt(states, acts, x, j) {
        ReaderRevokes(cfg, states, acts, session, x, k, g, j);
      }
      forall j: nat | j < n && RevokedAt(states, acts, x, j)
        ensures LogoutRevokes(states, acts, x, j) || exists g: nat :: TakenBy(states, acts, session, k, g, j)
      {
        if acts[j].RefreshRevoke? {
          var g := RefreshThatRevokes(cfg, states, acts, session, x, k, j);
          assert TakenBy(states, acts, session, k, g, j);
        }
      }
    }
  }

  lemma ReturnedStays(cfg: Config, states: seq<Db>, acts: seq<Action>, session: string, x: string, k: nat, n: nat)
    requires Follows(cfg, states, acts) && Inv(cfg, states[0]) && ReturnsAt(states, acts, session, x, k) && k < n < |states|
    ensures Minted(states[n], session, x) && x in states[n].returned
  {
    InvFollows(cfg, states, acts, k);
    StorerIsMinted(cfg, states[k], x, acts[k].call);
    assert StepAt(cfg, states, acts, k);
    IdsStay(cfg, states, acts, k, n, x);
    IdsStay(cfg, states, acts, k + 1, n, x);
  }
}
