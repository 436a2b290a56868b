/** Login sessions when refresh and revoke statements interleave. Hashing and signing are
    injective, so a stored hash is the token itself; and a token is determined by what it
    signs: its type, user and session, and two clock readings in whole seconds
    (NumericDate, section 2 of RFC 7519). */
module Sessions {
  import opened Options

  datatype Kind = Access | Refresh

  /** `born` is the second from which the expiry counts, `issued` the issue second. */
  datatype Token = Token(kind: Kind, user: nat, session: nat, born: int, issued: int)

  datatype Pair = Pair(access: Token, refresh: Token)

  /** `expires` is the refresh expiry in milliseconds. */
  datatype Row = Row(user: nat, pair: Pair, revoked: bool, expires: int)

  /** Token lifetimes in seconds. */
  datatype Lifetimes = Lifetimes(access: nat, refresh: nat)

  /** A refresh whose token was found valid, with the clock readings it has made so far:
      two to sign the access token, then two to sign the refresh token. */
  datatype Handler = Handler(user: nat, session: nat, seen: seq<int>)

  datatype World = World(
    ttl: Lifetimes, rows: map<nat, Row>, nextId: nat, clock: int, handlers: map<nat, Handler>, issued: set<Pair>)

  function Second(ms: int): int {
    ms / 1000
  }

  function Minted(user: nat, session: nat, seen: seq<int>): Pair
    requires |seen| == 4
  {
    Pair(Token(Access, user, session, Second(seen[0]), Second(seen[1])),
         Token(Refresh, user, session, Second(seen[2]), Second(seen[3])))
  }

  // ---- checks -----------------------------------------------------------

  function Lifetime(ttl: Lifetimes, kind: Kind): nat {
    if kind.Access? then ttl.access else ttl.refresh
  }

  predicate Unexpired(ttl: Lifetimes, t: Token, clock: int) {
    clock < 1000 * (t.born + Lifetime(ttl, t.kind))
  }

  /** The row of a token's session stores that token. */
  predicate Stores(rows: map<nat, Row>, t: Token) {
    t.session in rows && rows[t.session].user == t.user
    && (if t.kind.Access? then rows[t.session].pair.access else rows[t.session].pair.refresh) == t
  }

  predicate Authenticates(ttl: Lifetimes, rows: map<nat, Row>, t: Token, clock: int) {
    t.kind.Access? && Unexpired(ttl, t, clock) && Stores(rows, t) && !rows[t.session].revoked
  }

  predicate Refreshes(ttl: Lifetimes, rows: map<nat, Row>, t: Token, clock: int) {
    && t.kind.Refresh? && Unexpired(ttl, t, clock) && Stores(rows, t) && !rows[t.session].revoked
    && rows[t.session].expires > clock
  }

  // ---- statements -------------------------------------------------------

  /** Which rows a revoking statement hits. */
  datatype Which =
    | Own(id: nat)
    | OfUser(id: nat, user: nat)
    | Others(user: nat, keep: nat)
    | Everything(user: nat)
    | Expired(now: int)

  predicate Hit(id: nat, row: Row, which: Which) {
    match which
    case Own(sid) => id == sid
    case OfUser(sid, user) => id == sid && row.user == user
    case Others(user, keep) => row.user == user && id != keep
    case Everything(user) => row.user == user
    case Expired(now) => row.expires < now && !row.revoked
  }

  function Revoked(rows: map<nat, Row>, which: Which): map<nat, Row> {
    map id | id in rows :: if Hit(id, rows[id], which) then rows[id].(revoked := true) else rows[id]
  }

  /** The update that ends a refresh; it does not look at the revoked flag. */
  function Rotated(ttl: Lifetimes, rows: map<nat, Row>, user: nat, session: nat, seen: seq<int>): map<nat, Row>
    requires |seen| == 4
  {
    if session in rows then
      rows[session := rows[session].(pair := Minted(user, session, seen), expires := seen[2] + 1000 * ttl.refresh)]
    else rows
  }

  predicate InOrder(seen: seq<int>, clock: int) {
    |seen| == 4 && seen[0] <= seen[1] <= seen[2] <= seen[3] <= clock
  }

  datatype Step =
    | Tick(now: int)
    | Login(user: nat, seen: seq<int>)
    | Present(h: nat, token: Token)
    | Read(h: nat)
    | Update(h: nat)
    | Revoke(which: Which)
    | Delete(id: nat)

  predicate Enabled(w: World, s: Step) {
    match s
    case Tick(now) => w.clock <= now
    case Login(_, seen) => InOrder(seen, w.clock)
    case Present(h, _) => h !in w.handlers
    case Read(h) => h in w.handlers && |w.handlers[h].seen| < 4
    case Update(h) => h in w.handlers && |w.handlers[h].seen| == 4
    case Revoke(_) => true
    case Delete(id) => id in w.rows && w.rows[id].revoked
  }

  function Next(w: World, s: Step): World
    requires Enabled(w, s)
  {
    match s
    case Tick(now) => w.(clock := now)
    case Login(user, seen) =>
      var pair := Minted(user, w.nextId, seen);
      w.(rows := w.rows[w.nextId := Row(user, pair, false, seen[2] + 1000 * w.ttl.refresh)],
         nextId := w.nextId + 1, issued := w.issued + {pair})
    case Present(h, t) =>
      if Refreshes(w.ttl, w.rows, t, w.clock) then
        w.(handlers := w.handlers[h := Handler(t.user, t.session, [])])
      else w
    case Read(h) =>
      var q := w.handlers[h];
      w.(handlers := w.handlers[h := q.(seen := q.seen + [w.clock])])
    case Update(h) =>
      var q := w.handlers[h];
      w.(rows := Rotated(w.ttl, w.rows, q.user, q.session, q.seen), handlers := w.handlers - {h},
         issued := w.issued + {Minted(q.user, q.session, q.seen)})
    case Revoke(which) => w.(rows := Revoked(w.rows, which))
    case Delete(id) => w.(rows := w.rows - {id})
  }

  ghost predicate IsRun(run: seq<World>, steps: seq<Step>) {
    && |run| == |steps| + 1
    && forall k :: 0 <= k < |steps| ==> Enabled(run[k], steps[k]) && run[k + 1] == Next(run[k], steps[k])
  }

  ghost predicate Initial(w: World) {
    w.rows == map[] && w.handlers == map[] && w.issued == {}
  }

  // ---- revocation -------------------------------------------------------

  /** A session that was created and is now revoked or deleted. */
  predicate Closed(w: World, id: nat) {
    id < w.nextId && (id in w.rows ==> w.rows[id].revoked)
  }

  /** Revocation is permanent, even when the update of a refresh lands after it. */
  lemma {:induction false} RevocationIsPermanent(run: seq<World>, steps: seq<Step>, i: nat, j: nat, id: nat)
    requires IsRun(run, steps) && i <= j < |run| && Closed(run[i], id)
    ensures Closed(run[j], id)
  {
    if i == j {
    } else {
      RevocationIsPermanent(run, steps, i, j - 1, id);
      assert run[j] == Next(run[j - 1], steps[j - 1]);
    }
  }

  /** Once revoked, a session authenticates and refreshes no token ever again. */
  lemma NothingRevivesSession(run: seq<World>, steps: seq<Step>, i: nat, j: nat, t: Token)
    requires IsRun(run, steps) && i <= j < |run| && Closed(run[i], t.session)
    ensures !Authenticates(run[j].ttl, run[j].rows, t, run[j].clock)
    ensures !Refreshes(run[j].ttl, run[j].rows, t, run[j].clock)
  {
    RevocationIsPermanent(run, steps, i, j, t.session);
  }

  // ---- what the revoking handlers close ---------------------------------

  /** Nothing but revoked flags changes, and those are only set. */
  ghost predicate OnlyRevokes(before: map<nat, Row>, after: map<nat, Row>) {
    && after.Keys == before.Keys
    && forall id :: id in before ==> after[id] == before[id] || after[id] == before[id].(revoked := true)
  }

  /** Logout revokes the session of the token and no other. */
  lemma LogoutRevokes(w: World, session: nat, id: nat)
    requires id in w.rows
    ensures var after := Next(w, Revoke(Own(session))).rows;
            && OnlyRevokes(w.rows, after)
            && (after[id].revoked <==> w.rows[id].revoked || id == session)
  {
  }

  /** Revoking one session revokes it if it is the user's, and no other. */
  lemma RevokeOneRevokes(w: World, session: nat, user: nat, id: nat)
    requires id in w.rows
    ensures var after := Next(w, Revoke(OfUser(session, user))).rows;
            && OnlyRevokes(w.rows, after)
            && (after[id].revoked <==> w.rows[id].revoked || (id == session && w.rows[id].user == user))
  {
  }

  /** Revoking all others revokes the user's sessions but the kept one, which stays as it is,
      and nobody else's. */
  lemma RevokeOthersRevokes(w: World, user: nat, keep: nat, id: nat)
    requires id in w.rows
    ensures var after := Next(w, Revoke(Others(user, keep))).rows;
            && OnlyRevokes(w.rows, after)
            && (after[id].revoked <==> w.rows[id].revoked || (w.rows[id].user == user && id != keep))
            && (keep in w.rows ==> after[keep] == w.rows[keep])
  {
  }

  /** Logging out everywhere revokes all sessions of the user and nobody else's. */
  lemma LogoutAllRevokes(w: World, user: nat, id: nat)
    requires id in w.rows
    ensures var after := Next(w, Revoke(Everything(user))).rows;
            && OnlyRevokes(w.rows, after)
            && (after[id].revoked <==> w.rows[id].revoked || w.rows[id].user == user)
  {
  }

  /** The maintenance task revokes what has expired. */
  lemma ExpiryRevokes(w: World, now: int, id: nat)
    requires id in w.rows
    ensures var after := Next(w, Revoke(Expired(now))).rows;
            && OnlyRevokes(w.rows, after)
            && (after[id].revoked <==> w.rows[id].revoked || w.rows[id].expires < now)
  {
  }

  lemma RevokeIff(w: World, which: Which, id: nat)
    requires id in w.rows
    ensures var after := Next(w, Revoke(which)).rows;
            && OnlyRevokes(w.rows, after)
            && (after[id].revoked <==> w.rows[id].revoked || Hit(id, w.rows[id], which))
  {
    match which
    case Own(session) => LogoutRevokes(w, session, id);
    case OfUser(session, user) => RevokeOneRevokes(w, session, user, id);
    case Others(user, keep) => RevokeOthersRevokes(w, user, keep, id);
    case Everything(user) => LogoutAllRevokes(w, user, id);
    case Expired(now) => ExpiryRevokes(w, now, id);
  }

  /** So a session that a revoking handler hits accepts no token ever again, from the
      handler's statement on, whatever happens afterwards; and in that statement no other
      session loses anything. */
  lemma RevokedForGood(run: seq<World>, steps: seq<Step>, i: nat, j: nat, t: Token)
    requires IsRun(run, steps) && Initial(run[0]) && i < j < |run| && steps[i].Revoke? && t.session in run[i].rows
    ensures Hit(t.session, run[i].rows[t.session], steps[i].which) ==>
              && !Authenticates(run[j].ttl, run[j].rows, t, run[j].clock)
              && !Refreshes(run[j].ttl, run[j].rows, t, run[j].clock)
    ensures !Hit(t.session, run[i].rows[t.session], steps[i].which) ==>
              t.session in run[i + 1].rows && run[i + 1].rows[t.session] == run[i].rows[t.session]
  {
    var w, id := run[i], t.session;
    RunKeepsInv(run, steps, i);
    assert RowOk(w, id) && run[i + 1] == Next(w, steps[i]);
    RevokeIff(w, steps[i].which, id);
    if Hit(id, w.rows[id], steps[i].which) {
      NothingRevivesSession(run, steps, i + 1, j, t);
    }
  }

  /** No statement that changes a session's row comes between two moments. */
  ghost predicate Undisturbed(run: seq<World>, steps: seq<Step>, i: nat, j: nat, id: nat)
    requires |run| == |steps| + 1 && i <= j < |run|
  {
    forall k :: i <= k < j ==>
      && steps[k] != Delete(id)
      && (steps[k].Update? && steps[k].h in run[k].handlers ==> run[k].handlers[steps[k].h].session != id)
      && (steps[k].Revoke? && id in run[k].rows ==> !Hit(id, run[k].rows[id], steps[k].which))
  }

  lemma {:induction false} RowStays(run: seq<World>, steps: seq<Step>, i: nat, j: nat, id: nat)
    requires IsRun(run, steps) && i <= j < |run| && id in run[i].rows && id < run[i].nextId
    requires Undisturbed(run, steps, i, j, id)
    ensures id in run[j].rows && run[j].rows[id] == run[i].rows[id] && id < run[j].nextId && run[j].ttl == run[i].ttl
  {
    if i == j {
    } else {
      RowStays(run, steps, i, j - 1, id);
      var w, s := run[j - 1], steps[j - 1];
      assert run[j] == Next(w, s);
      if s.Revoke? { RevokeIff(w, s.which, id); }
    }
  }

  /** The tokens of a login are accepted exactly until their lifetimes are over, as long as
      nothing rotates, revokes or deletes the session. */
  lemma LoginIsAccepted(run: seq<World>, steps: seq<Step>, i: nat, j: nat, user: nat, seen: seq<int>)
    requires IsRun(run, steps) && i < j < |run| && steps[i] == Login(user, seen)
    requires Undisturbed(run, steps, i + 1, j, run[i].nextId)
    ensures var w, id := run[j], run[i].nextId;
            |seen| == 4 &&
            var access := Token(Access, user, id, seen[0] / 1000, seen[1] / 1000);
            var refresh := Token(Refresh, user, id, seen[2] / 1000, seen[3] / 1000);
            && (Authenticates(w.ttl, w.rows, access, w.clock) <==> w.clock < 1000 * (seen[0] / 1000 + w.ttl.access))
            && (Refreshes(w.ttl, w.rows, refresh, w.clock) <==> w.clock < 1000 * (seen[2] / 1000 + w.ttl.refresh))
  {
    assert run[i + 1] == Next(run[i], steps[i]);
    RowStays(run, steps, i + 1, j, run[i].nextId);
  }

  /** So are the tokens a refresh puts in the row of its session. */
  lemma RotationIsAccepted(run: seq<World>, steps: seq<Step>, i: nat, j: nat, h: nat)
    requires IsRun(run, steps) && Initial(run[0]) && i < j < |run| && steps[i] == Update(h)
    requires h in run[i].handlers && run[i].handlers[h].session in run[i].rows
    requires !run[i].rows[run[i].handlers[h].session].revoked
    requires Undisturbed(run, steps, i + 1, j, run[i].handlers[h].session)
    ensures var w, q := run[j], run[i].handlers[h];
            |q.seen| == 4 &&
            var access := Token(Access, q.user, q.session, q.seen[0] / 1000, q.seen[1] / 1000);
            var refresh := Token(Refresh, q.user, q.session, q.seen[2] / 1000, q.seen[3] / 1000);
            && (Authenticates(w.ttl, w.rows, access, w.clock) <==> w.clock < 1000 * (q.seen[0] / 1000 + w.ttl.access))
            && (Refreshes(w.ttl, w.rows, refresh, w.clock) <==> w.clock < 1000 * (q.seen[2] / 1000 + w.ttl.refresh))
  {
    RunKeepsInv(run, steps, i);
    var q := run[i].handlers[h];
    assert RowOk(run[i], q.session) && HandlerOk(run[i], q);
    assert run[i + 1] == Next(run[i], steps[i]);
    RowStays(run, steps, i + 1, j, q.session);
  }

  // ---- one issuance -----------------------------------------------------

  ghost predicate RowOk(w: World, id: nat)
    requires id in w.rows
  {
    var row := w.rows[id];
    && id < w.nextId && row.pair in w.issued
    && row.pair.access.session == row.pair.refresh.session == id
    && row.pair.access.user == row.pair.refresh.user == row.user
    && row.pair.access.kind.Access? && row.pair.refresh.kind.Refresh?
  }

  predicate Rising(seen: seq<int>, clock: int) {
    forall i, j :: 0 <= i <= j < |seen| ==> seen[i] <= seen[j] <= clock
  }

  ghost predicate HandlerOk(w: World, q: Handler) {
    && q.session < w.nextId && |q.seen| <= 4 && Rising(q.seen, w.clock)
    && (q.session in w.rows ==> w.rows[q.session].user == q.user)
  }

  ghost predicate Inv(w: World) {
    && (forall id :: id in w.rows ==> RowOk(w, id))
    && (forall h :: h in w.handlers ==> HandlerOk(w, w.handlers[h]))
  }

  lemma NextKeepsInv(w: World, s: Step)
    requires Inv(w) && Enabled(w, s)
    ensures Inv(Next(w, s))
  {
    var w' := Next(w, s);
    forall id | id in w'.rows ensures RowOk(w', id) {
      if id in w.rows { assert RowOk(w, id); }
      if s.Update? { assert HandlerOk(w, w.handlers[s.h]); }
    }
    forall h | h in w'.handlers ensures HandlerOk(w', w'.handlers[h]) {
      if h in w.handlers { assert HandlerOk(w, w.handlers[h]); }
      if s.Present? && h == s.h && h !in w.handlers { assert RowOk(w, s.token.session); }
    }
  }

  lemma {:induction false} RunKeepsInv(run: seq<World>, steps: seq<Step>, n: nat)
    requires IsRun(run, steps) && Initial(run[0]) && n < |run|
    ensures Inv(run[n])
  {
    if n == 0 {
    } else {
      RunKeepsInv(run, steps, n - 1);
      NextKeepsInv(run[n - 1], steps[n - 1]);
    }
  }

  /** The access and the refresh token a session accepts at any one moment come from a
      single issuance, made for that session and its user. */
  lemma AcceptedTokensAreOneIssuance(run: seq<World>, steps: seq<Step>, n: nat, access: Token, refresh: Token)
    requires IsRun(run, steps) && Initial(run[0]) && n < |run|
    requires Authenticates(run[n].ttl, run[n].rows, access, run[n].clock)
    requires Refreshes(run[n].ttl, run[n].rows, refresh, run[n].clock) && access.session == refresh.session
    ensures Pair(access, refresh) in run[n].issued && access.user == refresh.user
  {
    RunKeepsInv(run, steps, n);
    assert RowOk(run[n], access.session);
  }

  // ---- rotation ---------------------------------------------------------

  /** A refresh in flight that has already made both readings of a token. */
  predicate Carries(q: Handler, t: Token) {
    && q.user == t.user && q.session == t.session
    && if t.kind.Access? then |q.seen| >= 2 && Second(q.seen[0]) == t.born && Second(q.seen[1]) == t.issued
       else |q.seen| >= 4 && Second(q.seen[2]) == t.born && Second(q.seen[3]) == t.issued
  }

  ghost predicate Carried(w: World, t: Token) {
    exists h :: h in w.handlers && Carries(w.handlers[h], t)
  }

  /** The token's session exists, its seconds are past, and neither its row nor a refresh
      in flight has it. */
  ghost predicate Buried(w: World, t: Token) {
    && t.session < w.nextId && t.issued < Second(w.clock)
    && !Stores(w.rows, t) && !Carried(w, t)
    && forall h :: h in w.handlers ==> |w.handlers[h].seen| <= 4
  }

  lemma BuriedStaysBuried(w: World, s: Step, t: Token)
    requires Buried(w, t) && Enabled(w, s)
    ensures Buried(Next(w, s), t)
  {
    var w' := Next(w, s);
    forall h | h in w'.handlers ensures !Carries(w'.handlers[h], t) && |w'.handlers[h].seen| <= 4 {
      if h in w.handlers { assert !Carries(w.handlers[h], t); }
    }
    if s.Update? { assert !Carries(w.handlers[s.h], t); }
  }

  lemma {:induction false} RunStaysBuried(run: seq<World>, steps: seq<Step>, n: nat, t: Token)
    requires IsRun(run, steps) && Buried(run[0], t) && n < |run|
    ensures Buried(run[n], t)
  {
    if n == 0 {
    } else {
      RunStaysBuried(run, steps, n - 1, t);
      BuriedStaysBuried(run[n - 1], steps[n - 1], t);
    }
  }

  /** Some continuation of this world stores the token. */
  ghost predicate MayReturn(w: World, t: Token) {
    exists run: seq<World>, steps: seq<Step> ::
      IsRun(run, steps) && run[0] == w && Stores(run[|steps|].rows, t)
  }

  lemma {:induction false} FlightLands(w: World, h: nat, t: Token)
    returns (run: seq<World>, steps: seq<Step>)
    requires Inv(w) && h in w.handlers && Carries(w.handlers[h], t) && t.session in w.rows
    ensures IsRun(run, steps) && run[0] == w && Stores(run[|steps|].rows, t)
    decreases 4 - |w.handlers[h].seen|
  {
    assert HandlerOk(w, w.handlers[h]);
    var s := if |w.handlers[h].seen| == 4 then Update(h) else Read(h);
    var w' := Next(w, s);
    if s.Update? {
      run, steps := [w, w'], [s];
    } else {
      NextKeepsInv(w, s);
      var tail, rest := FlightLands(w', h, t);
      run, steps := [w] + tail, [s] + rest;
    }
  }

  /** A token of a past second that its row no longer stores is rejected forever, exactly
      when no refresh in flight carries it: a refresh that signed in the same second and
      is slow to update brings the old token back. */
  lemma RejectedForeverIff(w: World, t: Token)
    requires Inv(w) && t.session in w.rows && t.issued < Second(w.clock) && !Stores(w.rows, t)
    ensures MayReturn(w, t) <==> Carried(w, t)
  {
    forall h | h in w.handlers ensures |w.handlers[h].seen| <= 4 { assert HandlerOk(w, w.handlers[h]); }
    if Carried(w, t) {
      var h :| h in w.handlers && Carries(w.handlers[h], t);
      var run, steps := FlightLands(w, h, t);
      assert MayReturn(w, t);
    }
    if MayReturn(w, t) && !Carried(w, t) {
      var run: seq<World>, steps: seq<Step> :| IsRun(run, steps) && run[0] == w && Stores(run[|steps|].rows, t);
      RunStaysBuried(run, steps, |steps|, t);
      assert false;
    }
  }

  /** Both tokens of a pair that a refresh replaces in a later second stay rejected in
      every continuation, provided no other refresh in flight carries them. */
  lemma RotationRejectsOldPair(run: seq<World>, steps: seq<Step>, n: nat, h: nat, was: Pair)
    requires IsRun(run, steps) && Inv(run[0]) && 0 < n < |run| && steps[0] == Update(h)
    requires var q := run[0].handlers[h];
             && q.session in run[0].rows && run[0].rows[q.session].pair == was
             && was.access.issued < Second(q.seen[0]) && was.refresh.issued < Second(q.seen[0])
    requires forall g :: g in run[0].handlers && g != h ==>
               !Carries(run[0].handlers[g], was.access) && !Carries(run[0].handlers[g], was.refresh)
    ensures !Authenticates(run[n].ttl, run[n].rows, was.access, run[n].clock)
    ensures !Refreshes(run[n].ttl, run[n].rows, was.refresh, run[n].clock)
  {
    var w, q := run[1], run[0].handlers[h];
    assert HandlerOk(run[0], q) && RowOk(run[0], q.session);
    forall g | g in w.handlers ensures |w.handlers[g].seen| <= 4 { assert HandlerOk(run[0], run[0].handlers[g]); }
    assert q.seen[0] <= q.seen[1] && q.seen[0] <= q.seen[3] <= run[0].clock;
    assert Buried(w, was.access) && Buried(w, was.refresh);
    RunStaysBuried(run[1..], steps[1..], n - 1, was.access);
    RunStaysBuried(run[1..], steps[1..], n - 1, was.refresh);
  }

  lemma Extend(run: seq<World>, steps: seq<Step>, s: Step, w: World) returns (run': seq<World>, steps': seq<Step>)
    requires IsRun(run, steps) && Enabled(run[|steps|], s) && w == Next(run[|steps|], s)
    ensures IsRun(run', steps') && run'[0] == run[0] && run'[|steps'|] == w
  {
    run', steps' := run + [w], steps + [s];
  }

  lemma ReadOnce(run: seq<World>, steps: seq<Step>, w: World, h: nat, q: Handler, q': Handler)
    returns (run': seq<World>, steps': seq<Step>)
    requires IsRun(run, steps) && run[|steps|] == w.(handlers := w.handlers[h := q])
    requires |q.seen| < 4 && q' == q.(seen := q.seen + [w.clock])
    ensures IsRun(run', steps') && run'[0] == run[0] && run'[|steps'|] == w.(handlers := w.handlers[h := q'])
  {
    assert w.handlers[h := q][h := q'] == w.handlers[h := q'];
    run', steps' := Extend(run, steps, Read(h), w.(handlers := w.handlers[h := q']));
  }

  /** A refresh makes its four readings without a pause. */
  lemma ReadFour(run: seq<World>, steps: seq<Step>, h: nat, q: Handler) returns (run': seq<World>, steps': seq<Step>)
    requires IsRun(run, steps)
    requires var w := run[|steps|]; h in w.handlers && w.handlers[h] == q && q.seen == []
    ensures IsRun(run', steps') && run'[0] == run[0]
    ensures var w := run[|steps|];
            run'[|steps'|] == w.(handlers := w.handlers[h := q.(seen := [w.clock, w.clock, w.clock, w.clock])])
  {
    var w := run[|steps|];
    var c := w.clock;
    var one, two, three := q.(seen := [c]), q.(seen := [c, c]), q.(seen := [c, c, c]);
    assert w.handlers[h := q] == w.handlers;
    run', steps' := ReadOnce(run, steps, w, h, q, one);
    run', steps' := ReadOnce(run', steps', w, h, one, two);
    run', steps' := ReadOnce(run', steps', w, h, two, three);
    run', steps' := ReadOnce(run', steps', w, h, three, q.(seen := [c, c, c, c]));
  }

  /** A login in second 10, and a refresh that signs in the same second and then stalls. */
  lemma StalledRefresh() returns (run: seq<World>, steps: seq<Step>)
    ensures IsRun(run, steps) && Initial(run[0])
    ensures var at := [10000, 10000, 10000, 10000]; var pair := Minted(0, 0, at);
            run[|steps|] == World(Lifetimes(900, 604800), map[0 := Row(0, pair, false, 604810000)], 1, 10000,
                                  map[1 := Handler(0, 0, at)], {pair})
  {
    var at := [10000, 10000, 10000, 10000];
    var pair := Minted(0, 0, at);
    var w0 := World(Lifetimes(900, 604800), map[], 0, 10000, map[], {});
    var w1 := w0.(rows := map[0 := Row(0, pair, false, 604810000)], nextId := 1, issued := {pair});
    run, steps := Extend([w0], [], Login(0, at), w1);
    var w2 := w1.(handlers := map[1 := Handler(0, 0, [])]);
    run, steps := Extend(run, steps, Present(1, pair.refresh), w2);
    run, steps := ReadFour(run, steps, 1, Handler(0, 0, []));
  }

  /** "A rotation in a later second rejects the old pair forever" fails without its
      condition: the stalled refresh puts the replaced pair back. */
  lemma SlowRefreshRestoresOldPair() returns (run: seq<World>, steps: seq<Step>, n: nat)
    ensures IsRun(run, steps) && Initial(run[0]) && n < |steps|
    ensures var t := Minted(0, 0, [10000, 10000, 10000, 10000]).access;
            && !Stores(run[n].rows, t) && t.issued < Second(run[n].clock)
            && Authenticates(run[|steps|].ttl, run[|steps|].rows, t, run[|steps|].clock)
  {
    run, steps := StalledRefresh();
    var w := run[|steps|];
    var stalled, later := w.handlers[1], [11000, 11000, 11000, 11000];
    var w1 := w.(clock := 11000);
    run, steps := Extend(run, steps, Tick(11000), w1);
    var w2 := w1.(handlers := w1.handlers[2 := Handler(0, 0, [])]);
    run, steps := Extend(run, steps, Present(2, w.rows[0].pair.refresh), w2);
    run, steps := ReadFour(run, steps, 2, Handler(0, 0, []));
    var w3 := run[|steps|];
    var w4 := Next(w3, Update(2));
    run, steps := Extend(run, steps, Update(2), w4);
    n := |steps|;
    assert w4.rows == map[0 := Row(0, Minted(0, 0, later), false, 604811000)] && w4.handlers[1] == stalled;
    var w5 := Next(w4, Update(1));
    run, steps := run + [w5], steps + [Update(1)];
  }

  // ---- the handlers as written ------------------------------------------

  class Table {
    const ttl: Lifetimes
    var rows: map<nat, Row>
    var nextId: nat

    constructor (ttl: Lifetimes)
      ensures this.ttl == ttl && rows == map[] && nextId == 0
    {
      this.ttl, rows, nextId := ttl, map[], 0;
    }

    method Login(user: nat, seen: seq<int>) returns (pair: Pair)
      requires |seen| == 4
      modifies this
      ensures pair == Minted(user, old(nextId), seen) && nextId == old(nextId) + 1
      ensures rows == old(rows)[old(nextId) := Row(user, pair, false, seen[2] + 1000 * ttl.refresh)]
    {
      var access := Token(Access, user, nextId, seen[0] / 1000, seen[1] / 1000);
      var refresh := Token(Refresh, user, nextId, seen[2] / 1000, seen[3] / 1000);
      pair := Pair(access, refresh);
      rows := rows[nextId := Row(user, pair, false, seen[2] + 1000 * ttl.refresh)];
      nextId := nextId + 1;
    }

    method AuthenticateUser(t: Token, now: int) returns (ok: bool)
      ensures ok <==> Authenticates(ttl, rows, t, now)
    {
      if t.kind.Refresh? || now >= 1000 * (t.born + ttl.access) {
        return false;
      }
      if t.session !in rows {
        return false;
      }
      var row := rows[t.session];
      return row.user == t.user && row.pair.access == t && !row.revoked;
    }

    /** A refresh that nothing interrupts: the presented token buys one new pair, and
        does not buy another one if the second has changed since it was issued. */
    method RefreshToken(t: Token, now: int, seen: seq<int>) returns (pair: Option<Pair>)
      requires |seen| == 4 && now <= seen[0] <= seen[1] <= seen[2] <= seen[3]
      modifies this`rows
      ensures pair.Some? <==> Refreshes(ttl, old(rows), t, now)
      ensures pair.None? ==> rows == old(rows)
      ensures pair.Some? ==>
                && rows - {t.session} == old(rows) - {t.session}
                && pair.value == Minted(t.user, t.session, seen)
                && Stores(rows, pair.value.access) && Stores(rows, pair.value.refresh)
                && t.session in rows && !rows[t.session].revoked
                && (t.issued < Second(now) ==> !Refreshes(ttl, rows, t, seen[3]))
    {
      if t.kind.Access? || now >= 1000 * (t.born + ttl.refresh) {
        return None;
      }
      if t.session !in rows {
        return None;
      }
      var row := rows[t.session];
      if row.user != t.user || row.pair.refresh != t || row.revoked || row.expires <= now {
        return None;
      }
      var access := Token(Access, t.user, t.session, seen[0] / 1000, seen[1] / 1000);
      var refresh := Token(Refresh, t.user, t.session, seen[2] / 1000, seen[3] / 1000);
      rows := rows[t.session := row.(pair := Pair(access, refresh), expires := seen[2] + 1000 * ttl.refresh)];
      return Some(Pair(access, refresh));
    }

    /** Logout, the revoking handlers and the maintenance task, by the rows they hit. */
    method RevokeWhere(which: Which)
      modifies this`rows
      ensures rows == Revoked(old(rows), which)
    {
      var left := rows.Keys;
      ghost var before := rows;
      while left != {}
        invariant left <= before.Keys == rows.Keys
        invariant forall id :: id in before.Keys ==> rows[id] == if id in left then before[id] else Revoked(before, which)[id]
      {
        var id :| id in left;
        left := left - {id};
        if Hit(id, rows[id], which) {
          rows := rows[id := rows[id].(revoked := true)];
        }
      }
    }
  }
}
