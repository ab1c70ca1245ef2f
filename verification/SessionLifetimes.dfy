/** How long tokens and refresh entries last, when nothing ends them early. */
module SessionLifetimes {
  import opened Sessions
  import opened SessionOverlap
  import opened SessionMany

  predicate MintsAt(acts: seq<Action>, x: string, m: nat) {
    m < |acts| && (acts[m].LoginMint? || acts[m].RefreshMint?) && acts[m].acc == x
  }

  /** The expiry of a token follows from the time at which it was minted. */
  lemma MintedExpiry(cfg: Config, states: seq<Db>, acts: seq<Action>, x: string, m: nat, n: nat)
    requires Follows(cfg, states, acts) && MintsAt(acts, x, m) && m < n < |states|
    ensures x in states[n].minted
    ensures states[m].now + cfg.access - 1_000_000_000 < states[n].minted[x].exp <= states[m].now + cfg.access
  {
    assert StepAt(cfg, states, acts, m);
    ExpirySays(cfg, states[m].now);
    IdsStay(cfg, states, acts, m + 1, n, x);
  }

  /**
   * A returned token that is never revoked is live for the whole access time from its minting, but for less than the
   * last second, and never after.
   */
  lemma UnrevokedLastsAccessTime(
    cfg: Config, states: seq<Db>, acts: seq<Action>, session: string, x: string, m: nat, k: nat, n: nat)
    requires Follows(cfg, states, acts) && Inv(cfg, states[0]) && x !in states[0].black
    requires MintsAt(acts, x, m) && ReturnsAt(states, acts, session, x, k) && m < n && k < n < |states|
    requires forall j: nat :: j < n ==> !RevokedAt(states, acts, x, j)
    ensures states[n].now <= states[m].now + cfg.access - 1_000_000_000 ==> Live(states[n], session, x)
    ensures states[n].now >= states[m].now + cfg.access ==> !Live(states[n], session, x)
  {
    MintedExpiry(cfg, states, acts, x, m, n);
    ReturnedStays(cfg, states, acts, session, x, k, n);
    if states[n].now < states[n].minted[x].exp {
      LiveIffUnrevoked(cfg, states, acts, n, session, x);
    }
  }

  lemma {:induction false} StoredEntryWaits(cfg: Config, states: seq<Db>, acts: seq<Action>, session: string, x: string, k: nat, n: nat)
    requires Follows(cfg, states, acts) && ReturnsAt(states, acts, session, x, k) && n < |states|
    requires BeforeNextWrite(states, acts, session, k, n)
    ensures session in states[n].refs && states[n].refs[session] == Entry(x, states[k].now + cfg.refresh)
  {
    assert StepAt(cfg, states, acts, n - 1);
    if n == k + 1 {
    } else {
      assert !EntryWrittenAt(states, acts, session, n - 1);
      EntryStep(cfg, states[n - 1], acts[n - 1], session);
      StoredEntryWaits(cfg, states, acts, session, x, k, n - 1);
    }
  }

  /** Until it is written again, a session can be refreshed for exactly the refresh time from the store. */
  lemma EntryLastsRefreshTime(cfg: Config, states: seq<Db>, acts: seq<Action>, session: string, x: string, k: nat, n: nat, c: nat)
    requires Follows(cfg, states, acts) && ReturnsAt(states, acts, session, x, k) && n < |states|
    requires BeforeNextWrite(states, acts, session, k, n) && c !in states[n].calls
    ensures Enabled(states[n], RefreshGet(c, session)) <==> states[n].now < states[k].now + cfg.refresh
  {
    StoredEntryWaits(cfg, states, acts, session, x, k, n);
  }
}
