/** What two calls of one session leave behind when they may overlap; here, two Refreshes. */
module SessionOverlap {
  import opened Sessions

  /** When the four steps of a Refresh happen. */
  datatype Times = Times(get: nat, revoke: nat, mint: nat, store: nat)

  predicate IsTime(t: Times, i: nat) {
    i == t.get || i == t.revoke || i == t.mint || i == t.store
  }

  predicate Succeeds(acts: seq<Action>, session: string, c: nat, t: Times, x: string) {
    && t.get < t.revoke < t.mint < t.store < |acts|
    && acts[t.get] == RefreshGet(c, session) && acts[t.revoke] == RefreshRevoke(c, Done)
    && acts[t.mint] == RefreshMint(c, x) && acts[t.store] == Store(c, Done)
  }

  predicate OwnStep(acts: seq<Action>, c: nat, t: Times, i: nat)
    requires i < |acts|
  {
    Moves(acts[i], c) ==> IsTime(t, i)
  }

  /** The call `c` is one Refresh, which returns `x`. */
  ghost predicate Refreshes(acts: seq<Action>, session: string, c: nat, t: Times, x: string) {
    && Succeeds(acts, session, c, t, x)
    && (forall i {:trigger OwnStep(acts, c, t, i)} :: 0 <= i < |acts| ==> OwnStep(acts, c, t, i))
  }

  /** Two calls on one session. */
  datatype Duo = Duo(session: string, p: nat, q: nat)

  /** A step of one of the two calls, or of a call on some other session. */
  predicate Confined(acts: seq<Action>, w: Duo, i: nat)
    requires i < |acts|
  {
    || Moves(acts[i], w.p) || Moves(acts[i], w.q)
    || (acts[i].RefreshGet? || acts[i].LogoutDelete? || acts[i].LoginMint? ==> acts[i].session != w.session)
  }

  /** From a state with no call on the session, only the two calls work on it. */
  ghost predicate OnlyTwo(cfg: Config, states: seq<Db>, acts: seq<Action>, w: Duo) {
    && Follows(cfg, states, acts) && Inv(cfg, states[0]) && w.p != w.q
    && w.session in states[0].refs && (forall c :: !On(states[0], c, w.session))
    && (forall i {:trigger Confined(acts, w, i)} :: 0 <= i < |acts| ==> Confined(acts, w, i))
  }

  lemma {:induction false} NoThirdCall(cfg: Config, states: seq<Db>, acts: seq<Action>, w: Duo, i: nat, c: nat)
    requires OnlyTwo(cfg, states, acts, w) && i < |states| && On(states[i], c, w.session)
    ensures c == w.p || c == w.q
  {
    if i == 0 {
    } else {
      assert StepAt(cfg, states, acts, i - 1) && Confined(acts, w, i - 1);
      CameFrom(cfg, states[i - 1], acts[i - 1], w.session, c);
      if On(states[i - 1], c, w.session) { NoThirdCall(cfg, states, acts, w, i - 1, c); }
    }
  }

  /** A step of one of the two calls that may change the refresh entry. */
  predicate WritesEntry(acts: seq<Action>, w: Duo, i: nat)
    requires i < |acts|
  {
    (acts[i].Store? || acts[i].LogoutDelete?) && (acts[i].call == w.p || acts[i].call == w.q)
  }

  lemma EntryStays(cfg: Config, states: seq<Db>, acts: seq<Action>, w: Duo, i: nat)
    requires OnlyTwo(cfg, states, acts, w) && i < |acts| && !WritesEntry(acts, w, i)
    ensures w.session in states[i].refs <==> w.session in states[i + 1].refs
    ensures w.session in states[i].refs ==> states[i + 1].refs[w.session] == states[i].refs[w.session]
  {
    assert StepAt(cfg, states, acts, i) && Confined(acts, w, i);
    if acts[i].Store? && On(states[i], acts[i].call, w.session) {
      NoThirdCall(cfg, states, acts, w, i, acts[i].call);
    }
  }

  lemma {:induction false} EntryWaits(cfg: Config, states: seq<Db>, acts: seq<Action>, w: Duo, i: nat, j: nat)
    requires OnlyTwo(cfg, states, acts, w) && i <= j < |states|
    requires forall k :: i <= k < j ==> !WritesEntry(acts, w, k)
    ensures w.session in states[i].refs <==> w.session in states[j].refs
    ensures w.session in states[j].refs ==> states[j].refs[w.session] == states[i].refs[w.session]
  {
    if i == j {
    } else {
      EntryWaits(cfg, states, acts, w, i, j - 1);
      EntryStays(cfg, states, acts, w, j - 1);
    }
  }

  /** Minted, returned and blacklisted ids stay so. */
  lemma {:induction false} IdsStay(cfg: Config, states: seq<Db>, acts: seq<Action>, i: nat, j: nat, x: string)
    requires Follows(cfg, states, acts) && i <= j < |states|
    ensures x in states[i].minted ==> x in states[j].minted && states[j].minted[x] == states[i].minted[x]
    ensures x in states[i].returned ==> x in states[j].returned
    ensures x in states[i].black ==> x in states[j].black
  {
    if i == j {
    } else {
      IdsStay(cfg, states, acts, i, j - 1, x);
      assert StepAt(cfg, states, acts, j - 1);
    }
  }

  lemma RefreshWaits(cfg: Config, states: seq<Db>, acts: seq<Action>, session: string, c: nat, t: Times, x: string, i: nat, j: nat)
    requires Follows(cfg, states, acts) && Refreshes(acts, session, c, t, x) && i <= j < |states|
    requires forall k :: i <= k < j ==> !IsTime(t, k)
    ensures c in states[i].calls <==> c in states[j].calls
    ensures c in states[j].calls ==> states[j].calls[c] == states[i].calls[c]
  {
    forall k | i <= k < j ensures !Moves(acts[k], c) { assert OwnStep(acts, c, t, k); }
    CallWaits(cfg, states, acts, i, j, c);
  }

  /** What a Refresh read, revoked and stored. */
  lemma RefreshCall(cfg: Config, states: seq<Db>, acts: seq<Action>, session: string, c: nat, t: Times, x: string)
    requires Follows(cfg, states, acts) && Refreshes(acts, session, c, t, x)
    ensures session in states[t.get].refs && c in states[t.revoke].calls && c in states[t.store].calls
    ensures states[t.revoke].calls[c] == Fetched(session, states[t.get].refs[session].acc)
    ensures states[t.store].calls[c] == Storing(session, x)
    ensures x !in states[t.mint].minted && Minted(states[t.mint + 1], session, x) && x in states[t.store + 1].returned
  {
    assert StepAt(cfg, states, acts, t.get) && StepAt(cfg, states, acts, t.revoke) && StepAt(cfg, states, acts, t.mint);
    RefreshWaits(cfg, states, acts, session, c, t, x, t.get + 1, t.revoke);
    RefreshWaits(cfg, states, acts, session, c, t, x, t.revoke + 1, t.mint);
    RefreshWaits(cfg, states, acts, session, c, t, x, t.mint + 1, t.store);
    assert StepAt(cfg, states, acts, t.store);
  }

  /** A token is minted only from then on. */
  lemma MintedSince(cfg: Config, states: seq<Db>, acts: seq<Action>, session: string, c: nat, t: Times, x: string, i: nat)
    requires Follows(cfg, states, acts) && Refreshes(acts, session, c, t, x) && i < |states|
    ensures if i <= t.mint then x !in states[i].minted else Minted(states[i], session, x)
    ensures t.store < i ==> x in states[i].returned
  {
    RefreshCall(cfg, states, acts, session, c, t, x);
    if i <= t.mint {
      IdsStay(cfg, states, acts, i, t.mint, x);
    } else {
      IdsStay(cfg, states, acts, t.mint + 1, i, x);
    }
    if t.store < i {
      IdsStay(cfg, states, acts, t.store + 1, i, x);
    }
  }

  /** Only one of the two calls can revoke a token that one of them mints. */
  lemma RevokerIsOneOfTwo(cfg: Config, states: seq<Db>, acts: seq<Action>, w: Duo, t: Times, x: string, k: nat)
    requires OnlyTwo(cfg, states, acts, w) && Refreshes(acts, w.session, w.p, t, x) && RevokedAt(states, acts, x, k)
    ensures acts[k].call == w.p || acts[k].call == w.q
  {
    var c := acts[k].call;
    InvFollows(cfg, states, acts, k);
    assert CallOk(states[k], c);
    MintedSince(cfg, states, acts, w.session, w.p, t, x, k);
    NoThirdCall(cfg, states, acts, w, k, c);
  }

  /** The new token of `p` is live, before it expires, if and only if nothing has revoked it. */
  lemma NewTokenLivesIff(cfg: Config, states: seq<Db>, acts: seq<Action>, w: Duo, t: Times, x: string)
    requires OnlyTwo(cfg, states, acts, w) && Refreshes(acts, w.session, w.p, t, x)
    ensures Minted(states[|acts|], w.session, x)
    ensures states[|acts|].now < states[|acts|].minted[x].exp ==>
      (Live(states[|acts|], w.session, x) <==> forall k: nat :: k < |acts| ==> !RevokedAt(states, acts, x, k))
  {
    MintedSince(cfg, states, acts, w.session, w.p, t, x, |acts|);
    MintedSince(cfg, states, acts, w.session, w.p, t, x, 0);
    assert x in states[0].black ==> Outlives(states[0], x);
    if states[|acts|].now < states[|acts|].minted[x].exp {
      LiveIffUnrevoked(cfg, states, acts, |acts|, w.session, x);
    }
  }

  // ---- Two Refreshes ---------------------------------------------------------------------------

  /** Two Refreshes of one session; the first returns the token `x`, the second `y`. */
  datatype Pair = Pair(session: string, p: nat, q: nat, tp: Times, tq: Times, x: string, y: string)

  function Swap(w: Pair): Pair {
    Pair(w.session, w.q, w.p, w.tq, w.tp, w.y, w.x)
  }

  function DuoOf(w: Pair): Duo {
    Duo(w.session, w.p, w.q)
  }

  /** From a state with no call on the session, exactly two Refreshes work on it, and both succeed. */
  ghost predicate TwoRefreshes(cfg: Config, states: seq<Db>, acts: seq<Action>, w: Pair) {
    && OnlyTwo(cfg, states, acts, DuoOf(w))
    && Refreshes(acts, w.session, w.p, w.tp, w.x) && Refreshes(acts, w.session, w.q, w.tq, w.y)
  }

  lemma SwapKeeps(cfg: Config, states: seq<Db>, acts: seq<Action>, w: Pair)
    requires TwoRefreshes(cfg, states, acts, w)
    ensures TwoRefreshes(cfg, states, acts, Swap(w))
  {
    forall i | 0 <= i < |acts| ensures Confined(acts, DuoOf(Swap(w)), i) { assert Confined(acts, DuoOf(w), i); }
  }

  lemma PairWrites(cfg: Config, states: seq<Db>, acts: seq<Action>, w: Pair, i: nat, j: nat)
    requires TwoRefreshes(cfg, states, acts, w) && i <= j < |states| && !(i <= w.tp.store < j) && !(i <= w.tq.store < j)
    ensures forall k :: i <= k < j ==> !WritesEntry(acts, DuoOf(w), k)
  {
    forall k | i <= k < j ensures !WritesEntry(acts, DuoOf(w), k) {
      assert OwnStep(acts, w.p, w.tp, k) && OwnStep(acts, w.q, w.tq, k);
    }
  }

  /** The second call reads the token of the first exactly when it starts after the first has stored it. */
  lemma ReadsIffLater(cfg: Config, states: seq<Db>, acts: seq<Action>, w: Pair)
    requires TwoRefreshes(cfg, states, acts, w)
    ensures w.session in states[w.tq.get].refs
    ensures states[w.tq.get].refs[w.session].acc == w.x <==> w.tp.store < w.tq.get
  {
    RefreshCall(cfg, states, acts, w.session, w.p, w.tp, w.x);
    RefreshCall(cfg, states, acts, w.session, w.q, w.tq, w.y);
    assert StepAt(cfg, states, acts, w.tp.store);
    if w.tp.store < w.tq.get {
      PairWrites(cfg, states, acts, w, w.tp.store + 1, w.tq.get);
      EntryWaits(cfg, states, acts, DuoOf(w), w.tp.store + 1, w.tq.get);
    } else {
      PairWrites(cfg, states, acts, w, 0, w.tq.get);
      EntryWaits(cfg, states, acts, DuoOf(w), 0, w.tq.get);
      IdsStay(cfg, states, acts, 0, w.tp.mint, states[0].refs[w.session].acc);
    }
  }

  /** The first call cannot revoke its own token, and the second does so only if it read it. */
  lemma RevokedIffRead(cfg: Config, states: seq<Db>, acts: seq<Action>, w: Pair)
    requires TwoRefreshes(cfg, states, acts, w)
    ensures (exists k: nat :: k < |acts| && RevokedAt(states, acts, w.x, k)) <==> w.tp.store < w.tq.get
  {
    ReadsIffLater(cfg, states, acts, w);
    RefreshCall(cfg, states, acts, w.session, w.q, w.tq, w.y);
    assert w.tp.store < w.tq.get ==> RevokedAt(states, acts, w.x, w.tq.revoke);
    forall k: nat | k < |acts| && RevokedAt(states, acts, w.x, k) ensures w.tp.store < w.tq.get {
      RevokerIsSecond(cfg, states, acts, w, k);
    }
  }

  lemma RevokerIsSecond(cfg: Config, states: seq<Db>, acts: seq<Action>, w: Pair, k: nat)
    requires TwoRefreshes(cfg, states, acts, w) && RevokedAt(states, acts, w.x, k)
    ensures k == w.tq.revoke
  {
    RevokerIsOneOfTwo(cfg, states, acts, DuoOf(w), w.tp, w.x, k);
    assert OwnStep(acts, w.p, w.tp, k) && OwnStep(acts, w.q, w.tq, k);
    InvFollows(cfg, states, acts, k);
    assert CallOk(states[k], acts[k].call);
    MintedSince(cfg, states, acts, w.session, w.p, w.tp, w.x, k);
  }

  /** The first token survives, until it expires, exactly when the second call read the entry before it was stored. */
  lemma FirstLivesIffUnread(cfg: Config, states: seq<Db>, acts: seq<Action>, w: Pair)
    requires TwoRefreshes(cfg, states, acts, w)
    ensures Minted(states[|acts|], w.session, w.x)
    ensures states[|acts|].now < states[|acts|].minted[w.x].exp ==>
      (Live(states[|acts|], w.session, w.x) <==> w.tq.get < w.tp.store)
  {
    NewTokenLivesIff(cfg, states, acts, DuoOf(w), w.tp, w.x);
    RevokedIffRead(cfg, states, acts, w);
  }

  predicate Overlap(w: Pair) {
    w.tq.get < w.tp.store && w.tp.get < w.tq.store
  }

  /**
   * Two successful Refreshes of one session leave two live tokens, before either expires, exactly when each of them
   * read the entry before the other had stored its token.
   */
  lemma BothLiveIffOverlap(cfg: Config, states: seq<Db>, acts: seq<Action>, w: Pair)
    requires TwoRefreshes(cfg, states, acts, w)
    ensures Minted(states[|acts|], w.session, w.x) && Minted(states[|acts|], w.session, w.y)
    ensures states[|acts|].now < states[|acts|].minted[w.x].exp && states[|acts|].now < states[|acts|].minted[w.y].exp ==>
      (Live(states[|acts|], w.session, w.x) && Live(states[|acts|], w.session, w.y) <==> Overlap(w))
  {
    FirstLivesIffUnread(cfg, states, acts, w);
    SwapKeeps(cfg, states, acts, w);
    FirstLivesIffUnread(cfg, states, acts, Swap(w));
  }

  // ---- Such runs exist -------------------------------------------------------------------------

  /** Two Refreshes whose steps alternate: both read, both revoke, both mint, both store. */
  function Alternating(session: string, x: string, y: string): seq<Action> {
    BothRevoke(session) + BothStore(x, y)
  }

  function BothRevoke(session: string): seq<Action> {
    [RefreshGet(0, session), RefreshGet(1, session), RefreshRevoke(0, Done), RefreshRevoke(1, Done)]
  }

  function BothStore(x: string, y: string): seq<Action> {
    [RefreshMint(0, x), RefreshMint(1, y), Store(0, Done), Store(1, Done)]
  }

  lemma FourSteps(cfg: Config, states: seq<Db>, acts: seq<Action>)
    requires |acts| == 4 && |states| == 5 && StepAt(cfg, states, acts, 0) && StepAt(cfg, states, acts, 1)
    requires StepAt(cfg, states, acts, 2) && StepAt(cfg, states, acts, 3)
    ensures Follows(cfg, states, acts)
  {
    forall i | 0 <= i < |acts| ensures StepAt(cfg, states, acts, i) {
      assert i == 0 || i == 1 || i == 2 || i == 3;
    }
  }

  lemma RevokeFirst(cfg: Config, s: Db, session: string, z: string) returns (states: seq<Db>)
    requires s.calls == map[] && Present(s, session) && s.refs[session].acc == z
    ensures Follows(cfg, states, BothRevoke(session)) && states[0] == s
    ensures states[4].calls == map[0 := Revoked(session), 1 := Revoked(session)]
    ensures states[4].minted == s.minted && states[4].black.Keys == s.black.Keys + {z}
  {
    var a := Do(cfg, s, RefreshGet(0, session));
    var b := Do(cfg, a, RefreshGet(1, session));
    var c := Do(cfg, b, RefreshRevoke(0, Done));
    var d := Do(cfg, c, RefreshRevoke(1, Done));
    states := [s, a, b, c, d];
    FourSteps(cfg, states, BothRevoke(session));
  }

  lemma StoreThen(cfg: Config, s: Db, session: string, x: string, y: string) returns (states: seq<Db>)
    requires s.calls == map[0 := Revoked(session), 1 := Revoked(session)] && cfg.access >= SECOND
    requires x != y && x !in s.minted && y !in s.minted && x !in s.black && y !in s.black
    ensures Follows(cfg, states, BothStore(x, y)) && states[0] == s
    ensures Live(states[4], session, x) && Live(states[4], session, y)
  {
    var a := Do(cfg, s, RefreshMint(0, x));
    var b := Do(cfg, a, RefreshMint(1, y));
    var c := Do(cfg, b, Store(0, Done));
    var d := Do(cfg, c, Store(1, Done));
    states := [s, a, b, c, d];
    FourSteps(cfg, states, BothStore(x, y));
  }

  lemma FollowsOn(cfg: Config, first: seq<Db>, before: seq<Action>, second: seq<Db>, after: seq<Action>)
    requires Follows(cfg, first, before) && Follows(cfg, second, after) && second[0] == first[|before|]
    ensures Follows(cfg, first + second[1..], before + after)
  {
    var states, acts := first + second[1..], before + after;
    forall i | 0 <= i < |acts| ensures StepAt(cfg, states, acts, i) {
      if i < |before| {
        assert StepAt(cfg, first, before, i);
      } else {
        assert StepAt(cfg, second, after, i - |before|);
      }
    }
  }

  /** From every state with a current token, two overlapping Refreshes can leave two live tokens. */
  lemma OverlapLeavesTwoLive(cfg: Config, s: Db, session: string, x: string, y: string) returns (states: seq<Db>)
    requires Inv(cfg, s) && s.calls == map[] && Present(s, session) && cfg.access >= SECOND
    requires x != y && x !in s.minted && y !in s.minted
    ensures Follows(cfg, states, Alternating(session, x, y)) && states[0] == s
    ensures Live(states[8], session, x) && Live(states[8], session, y)
  {
    var z := s.refs[session].acc;
    assert Minted(s, session, z);
    assert (x in s.black ==> Outlives(s, x)) && (y in s.black ==> Outlives(s, y));
    var first := RevokeFirst(cfg, s, session, z);
    var second := StoreThen(cfg, first[4], session, x, y);
    FollowsOn(cfg, first, BothRevoke(session), second, BothStore(x, y));
    states := first + second[1..];
  }
}
