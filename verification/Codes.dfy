/** Verification codes, with the transactions that request and verify them serialised. */
module Codes {
  import opened Options

  /** `gone` marks a row that maintenance has deleted. The last three fields are history:
      how often the code was compared with a guess, how often redeemed, and when last. */
  datatype Code = Code(
    user: nat, code: string, attempts: nat, expires: int, created: int, used: bool, gone: bool,
    compares: nat, redeemed: nat, redeemedAt: int)

  /** The lifetime of a code, the attempts allowed, an hour and a day, in milliseconds. */
  datatype Config = Config(lifetime: int, maxAttempts: int)

  const HOUR: int := 3600000
  const DAY: int := 86400000

  datatype Outcome = NoCode | CodeExpired | TooManyAttempts | WrongCode | Redeemed

  predicate Open(c: Code, user: nat) {
    c.user == user && !c.used && !c.gone
  }

  // ---- selections -------------------------------------------------------

  /** The codes of a user that are unused and not older than an hour. */
  function RecentOpen(codes: seq<Code>, user: nat, now: int): nat {
    if codes == [] then 0
    else
      var n := |codes| - 1;
      RecentOpen(codes[..n], user, now) + (if Open(codes[n], user) && codes[n].created > now - HOUR then 1 else 0)
  }

  /** The newest unused code of a user; rows stand in order of creation. */
  function Newest(codes: seq<Code>, user: nat): (i: Option<nat>)
    ensures i.Some? ==> i.value < |codes| && Open(codes[i.value], user)
  {
    if codes == [] then None
    else
      var n := |codes| - 1;
      if Open(codes[n], user) then Some(n) else Newest(codes[..n], user)
  }

  // ---- transactions -----------------------------------------------------

  function Superseded(codes: seq<Code>, user: nat): (after: seq<Code>)
    ensures |after| == |codes|
  {
    seq(|codes|, i requires 0 <= i < |codes| => if Open(codes[i], user) then codes[i].(used := true) else codes[i])
  }

  function Requested(cfg: Config, codes: seq<Code>, user: nat, code: string, now: int): seq<Code> {
    if RecentOpen(codes, user, now) >= 3 then codes
    else Superseded(codes, user) + [Code(user, code, 0, now + cfg.lifetime, now, false, false, 0, 0, 0)]
  }

  function Judged(cfg: Config, c: Code, guess: string, now: int): Outcome {
    if now > c.expires then CodeExpired
    else if c.attempts >= cfg.maxAttempts then TooManyAttempts
    else if c.code != guess then WrongCode
    else Redeemed
  }

  function AfterGuess(c: Code, outcome: Outcome, now: int): Code {
    match outcome
    case WrongCode => c.(attempts := c.attempts + 1, compares := c.compares + 1)
    case Redeemed => c.(used := true, compares := c.compares + 1, redeemed := c.redeemed + 1, redeemedAt := now)
    case _ => c.(used := true)
  }

  function Answered(cfg: Config, codes: seq<Code>, user: nat, guess: string, now: int): Outcome {
    match Newest(codes, user)
    case None => NoCode
    case Some(i) => Judged(cfg, codes[i], guess, now)
  }

  function Verified(cfg: Config, codes: seq<Code>, user: nat, guess: string, now: int): seq<Code> {
    match Newest(codes, user)
    case None => codes
    case Some(i) => codes[i := AfterGuess(codes[i], Judged(cfg, codes[i], guess, now), now)]
  }

  function CleanedUp(codes: seq<Code>, now: int): (after: seq<Code>)
    ensures |after| == |codes|
  {
    seq(|codes|, i requires 0 <= i < |codes| => if codes[i].expires < now - DAY then codes[i].(gone := true) else codes[i])
  }

  datatype Step =
    | Request(user: nat, code: string, now: int)
    | Verify(user: nat, guess: string, now: int)
    | CleanUp(now: int)

  function Next(cfg: Config, codes: seq<Code>, s: Step): seq<Code> {
    match s
    case Request(user, code, now) => Requested(cfg, codes, user, code, now)
    case Verify(user, guess, now) => Verified(cfg, codes, user, guess, now)
    case CleanUp(now) => CleanedUp(codes, now)
  }

  ghost predicate IsRun(cfg: Config, run: seq<seq<Code>>, steps: seq<Step>) {
    && |run| == |steps| + 1 && run[0] == []
    && forall k :: 0 <= k < |steps| ==> run[k + 1] == Next(cfg, run[k], steps[k])
  }

  // ---- the invariant ----------------------------------------------------

  ghost predicate CodeOk(cfg: Config, c: Code) {
    && c.compares == c.attempts + c.redeemed && c.redeemed <= 1
    && (c.redeemed == 1 ==> c.used && c.redeemedAt <= c.expires && c.attempts < cfg.maxAttempts)
    && (c.attempts > 0 ==> c.attempts <= cfg.maxAttempts)
  }

  /** An unused code is the last its user has requested. */
  ghost predicate LastOfUser(codes: seq<Code>, i: nat)
    requires i < |codes|
  {
    forall j :: i < j < |codes| ==> codes[j].user != codes[i].user
  }

  ghost predicate Inv(cfg: Config, codes: seq<Code>) {
    forall i :: 0 <= i < |codes| ==> CodeOk(cfg, codes[i]) && (Open(codes[i], codes[i].user) ==> LastOfUser(codes, i))
  }

  lemma NextKeepsInv(cfg: Config, codes: seq<Code>, s: Step)
    requires Inv(cfg, codes)
    ensures Inv(cfg, Next(cfg, codes, s))
  {
    var after := Next(cfg, codes, s);
    forall i | 0 <= i < |after| ensures CodeOk(cfg, after[i]) && (Open(after[i], after[i].user) ==> LastOfUser(after, i)) {
      if i < |codes| {
        assert CodeOk(cfg, codes[i]);
        assert Open(after[i], after[i].user) ==> Open(codes[i], codes[i].user) && LastOfUser(codes, i);
      }
    }
  }

  lemma {:induction false} RunKeepsInv(cfg: Config, run: seq<seq<Code>>, steps: seq<Step>, n: nat)
    requires IsRun(cfg, run, steps) && n < |run|
    ensures Inv(cfg, run[n])
  {
    if n == 0 {
    } else {
      RunKeepsInv(cfg, run, steps, n - 1);
      NextKeepsInv(cfg, run[n - 1], steps[n - 1]);
    }
  }

  // ---- what holds at every moment of every run --------------------------

  /** A code is compared at most the allowed number of times, redeemed at most once, and
      never after its expiry. */
  lemma CodeSafety(cfg: Config, run: seq<seq<Code>>, steps: seq<Step>, n: nat, i: nat)
    requires IsRun(cfg, run, steps) && n < |run| && i < |run[n]|
    ensures var c := run[n][i];
            && (c.compares > 0 ==> c.compares <= cfg.maxAttempts)
            && c.redeemed <= 1
            && (c.redeemed == 1 ==> c.used && c.redeemedAt <= c.expires)
  {
    RunKeepsInv(cfg, run, steps, n);
    assert CodeOk(cfg, run[n][i]);
  }

  /** A user never has two unused codes. */
  lemma OneOpenCode(cfg: Config, run: seq<seq<Code>>, steps: seq<Step>, n: nat, i: nat, j: nat)
    requires IsRun(cfg, run, steps) && n < |run| && i < |run[n]| && j < |run[n]|
    requires run[n][i].user == run[n][j].user
    requires Open(run[n][i], run[n][i].user) && Open(run[n][j], run[n][j].user)
    ensures i == j
  {
    RunKeepsInv(cfg, run, steps, n);
    assert LastOfUser(run[n], i) && LastOfUser(run[n], j);
  }

  lemma {:induction false} RecentOpenNone(codes: seq<Code>, user: nat, now: int)
    requires forall i :: 0 <= i < |codes| ==> !Open(codes[i], user)
    ensures RecentOpen(codes, user, now) == 0
  {
    if codes == [] {
    } else {
      RecentOpenNone(codes[..|codes| - 1], user, now);
    }
  }

  lemma {:induction false} RecentOpenAtMostOne(cfg: Config, codes: seq<Code>, user: nat, now: int)
    requires Inv(cfg, codes)
    ensures RecentOpen(codes, user, now) <= 1
  {
    if codes == [] {
    } else {
      var n := |codes| - 1;
      if Open(codes[n], user) {
        forall i | 0 <= i < n ensures !Open(codes[..n][i], user) {
          assert Open(codes[i], codes[i].user) ==> LastOfUser(codes, i);
        }
        RecentOpenNone(codes[..n], user, now);
      } else {
        forall i | 0 <= i < n
          ensures CodeOk(cfg, codes[..n][i]) && (Open(codes[..n][i], codes[i].user) ==> LastOfUser(codes[..n], i))
        {
          assert CodeOk(cfg, codes[i]) && (Open(codes[i], codes[i].user) ==> LastOfUser(codes, i));
        }
        RecentOpenAtMostOne(cfg, codes[..n], user, now);
      }
    }
  }

  /** The limit of three codes an hour never refuses a request: it counts unused codes,
      and each request uses up the ones before it. */
  lemma RequestIsNeverRefused(cfg: Config, run: seq<seq<Code>>, steps: seq<Step>, n: nat, user: nat, code: string, now: int)
    requires IsRun(cfg, run, steps) && n < |run|
    ensures RecentOpen(run[n], user, now) < 3
    ensures var after := Requested(cfg, run[n], user, code, now);
            |after| == |run[n]| + 1 && Newest(after, user) == Some(|run[n]|)
  {
    RunKeepsInv(cfg, run, steps, n);
    RecentOpenAtMostOne(cfg, run[n], user, now);
  }

  lemma {:induction false} NewestIs(codes: seq<Code>, user: nat, i: nat)
    requires i < |codes| && Open(codes[i], user)
    requires forall j :: i < j < |codes| ==> !Open(codes[j], user)
    ensures Newest(codes, user) == Some(i)
  {
    if i == |codes| - 1 {
    } else {
      NewestIs(codes[..|codes| - 1], user, i);
    }
  }

  lemma {:induction false} NewestNone(codes: seq<Code>, user: nat)
    requires Newest(codes, user) == None
    ensures forall j :: 0 <= j < |codes| ==> !Open(codes[j], user)
  {
    if codes == [] {
    } else {
      NewestNone(codes[..|codes| - 1], user);
    }
  }

  /** A guess succeeds exactly when the user has an unused code, it is not past its
      expiry, it has attempts left, and the guess matches; and no older code can do. */
  lemma RedeemedIff(cfg: Config, run: seq<seq<Code>>, steps: seq<Step>, n: nat, user: nat, guess: string, now: int)
    requires IsRun(cfg, run, steps) && n < |run|
    ensures Answered(cfg, run[n], user, guess, now) == Redeemed <==>
            exists i :: 0 <= i < |run[n]| && Open(run[n][i], user) && LastOfUser(run[n], i)
                        && now <= run[n][i].expires && run[n][i].attempts < cfg.maxAttempts && run[n][i].code == guess
  {
    var codes := run[n];
    RunKeepsInv(cfg, run, steps, n);
    var found := Newest(codes, user);
    if found.Some? { assert LastOfUser(codes, found.value); } else { NewestNone(codes, user); }
    forall i | 0 <= i < |codes| && Open(codes[i], user) ensures found == Some(i) {
      assert LastOfUser(codes, i);
      NewestIs(codes, user, i);
    }
  }

  // ---- what one request and one guess do ---------------------------------

  /** The unused codes of a user that are less than an hour old. */
  ghost function RecentCodes(codes: seq<Code>, user: nat, now: int): set<nat> {
    set i | 0 <= i < |codes| && codes[i].user == user && !codes[i].used && !codes[i].gone && codes[i].created > now - 3600000
  }

  lemma RecentStep(codes: seq<Code>, user: nat, now: int)
    requires codes != []
    ensures var n := |codes| - 1;
            var counts := codes[n].user == user && !codes[n].used && !codes[n].gone && codes[n].created > now - 3600000;
            |RecentCodes(codes, user, now)| == |RecentCodes(codes[..n], user, now)| + (if counts then 1 else 0)
  {
    var n := |codes| - 1;
    var before, after := RecentCodes(codes[..n], user, now), RecentCodes(codes, user, now);
    forall i ensures i in before <==> i in after && i != n {
      if 0 <= i < n { assert codes[..n][i] == codes[i]; }
    }
    assert after == if n in after then before + {n} else before;
  }

  lemma {:induction false} RecentOpenCounts(codes: seq<Code>, user: nat, now: int)
    ensures RecentOpen(codes, user, now) == |RecentCodes(codes, user, now)|
  {
    if codes == [] {
    } else {
      var n := |codes| - 1;
      RecentOpenCounts(codes[..n], user, now);
      RecentStep(codes, user, now);
    }
  }

  /** On any table: a request changes nothing exactly if three unused codes of the user are
      less than an hour old; else it uses up all the user's codes and adds a new one. */
  lemma LimitIff(cfg: Config, codes: seq<Code>, user: nat, code: string, now: int)
    ensures var after := Next(cfg, codes, Request(user, code, now));
            && (|RecentCodes(codes, user, now)| >= 3 ==> after == codes)
            && (|RecentCodes(codes, user, now)| < 3 ==>
                  && |after| == |codes| + 1
                  && after[|codes|].user == user && after[|codes|].code == code && after[|codes|].created == now
                  && after[|codes|].attempts == 0 && !after[|codes|].used && !after[|codes|].gone
                  && after[|codes|].expires == now + cfg.lifetime
                  && (forall i :: 0 <= i < |codes| && codes[i].user != user ==> after[i] == codes[i])
                  && (forall i :: 0 <= i < |codes| && codes[i].user == user && !codes[i].gone ==> after[i].used))
  {
    RecentOpenCounts(codes, user, now);
  }

  /** No code of the user waits for a guess. */
  ghost predicate NothingOpen(codes: seq<Code>, user: nat) {
    forall i :: 0 <= i < |codes| && codes[i].user == user ==> codes[i].used || codes[i].gone
  }

  lemma {:induction false} NewestNeedsOpen(codes: seq<Code>, user: nat)
    requires NothingOpen(codes, user)
    ensures Newest(codes, user) == None
  {
    if codes == [] {
    } else {
      NewestNeedsOpen(codes[..|codes| - 1], user);
    }
  }

  lemma StepNothingOpen(cfg: Config, codes: seq<Code>, s: Step, user: nat)
    requires NothingOpen(codes, user) && !(s.Request? && s.user == user)
    ensures NothingOpen(Next(cfg, codes, s), user)
  {
    if s.Verify? && s.user == user { NewestNeedsOpen(codes, user); }
  }

  lemma {:induction false} RunNothingOpen(cfg: Config, run: seq<seq<Code>>, steps: seq<Step>, m: nat, n: nat, user: nat)
    requires IsRun(cfg, run, steps) && m <= n < |run| && NothingOpen(run[m], user)
    requires forall k :: m <= k < n ==> !(steps[k].Request? && steps[k].user == user)
    ensures NothingOpen(run[n], user)
  {
    if m == n {
    } else {
      RunNothingOpen(cfg, run, steps, m, n - 1, user);
      StepNothingOpen(cfg, run[n - 1], steps[n - 1], user);
    }
  }

  /** Every guess but a wrong one spends the code: after a success, an expiry or too many
      attempts no guess of the user finds a code, whatever it is, until a new one is
      requested. */
  lemma SpentForGood(cfg: Config, run: seq<seq<Code>>, steps: seq<Step>, m: nat, n: nat,
                     user: nat, guess: string, now: int, later: string, at: int)
    requires IsRun(cfg, run, steps) && m < n < |run| && steps[m] == Verify(user, guess, now)
    requires Answered(cfg, run[m], user, guess, now) != WrongCode
    requires forall k :: m < k < n ==> !(steps[k].Request? && steps[k].user == user)
    ensures Answered(cfg, run[n], user, later, at) == NoCode
  {
    var codes := run[m];
    RunKeepsInv(cfg, run, steps, m);
    assert run[m + 1] == Next(cfg, codes, steps[m]);
    if Newest(codes, user).None? {
      NewestNone(codes, user);
    } else {
      var i := Newest(codes, user).value;
      assert LastOfUser(codes, i);
      forall j | 0 <= j < |codes| && Open(codes[j], user) ensures j == i {
        assert LastOfUser(codes, j);
      }
    }
    RunNothingOpen(cfg, run, steps, m + 1, n, user);
    NewestNeedsOpen(run[n], user);
  }

  // ---- the code just requested ------------------------------------------

  /** The user's wrong guesses of a stretch of the run. */
  function Guesses(steps: seq<Step>, from: nat, n: nat, user: nat): nat
    requires from <= n <= |steps|
  {
    if n == from then 0
    else Guesses(steps, from, n - 1, user) + (if steps[n - 1].Verify? && steps[n - 1].user == user then 1 else 0)
  }

  /** The user asks for no other code, guesses wrong and in time, and no clean-up comes a day
      late. */
  predicate Leaves(s: Step, user: nat, code: string, expires: int) {
    match s
    case Request(u, _, _) => u != user
    case Verify(u, guess, now) => u == user ==> guess != code && now <= expires
    case CleanUp(now) => now - DAY <= expires
  }

  ghost predicate Waiting(steps: seq<Step>, from: nat, n: nat, user: nat, code: string, expires: int)
    requires from <= n <= |steps|
  {
    forall k :: from <= k < n ==> Leaves(steps[k], user, code, expires)
  }

  /** The code as it waits for the right guess. */
  ghost predicate Awaits(codes: seq<Code>, p: nat, user: nat, code: string, expires: int, attempts: nat) {
    && p < |codes| && codes[p].user == user && codes[p].code == code && codes[p].expires == expires
    && codes[p].attempts == attempts && !codes[p].used && !codes[p].gone
  }

  lemma StepAwaits(cfg: Config, codes: seq<Code>, s: Step, p: nat, user: nat, code: string, expires: int, attempts: nat)
    requires Inv(cfg, codes) && Awaits(codes, p, user, code, expires, attempts)
    requires Leaves(s, user, code, expires) && (s.Verify? && s.user == user ==> attempts < cfg.maxAttempts)
    ensures Awaits(Next(cfg, codes, s), p, user, code, expires, attempts + (if s.Verify? && s.user == user then 1 else 0))
  {
    if s.Verify? && s.user == user {
      assert Open(codes[p], codes[p].user) ==> LastOfUser(codes, p);
      NewestIs(codes, user, p);
    }
  }

  lemma RunStepAwaits(cfg: Config, run: seq<seq<Code>>, steps: seq<Step>, k: nat, p: nat, user: nat, code: string,
                      expires: int, attempts: nat)
    requires IsRun(cfg, run, steps) && k < |steps| && Awaits(run[k], p, user, code, expires, attempts)
    requires Leaves(steps[k], user, code, expires)
    requires steps[k].Verify? && steps[k].user == user ==> attempts < cfg.maxAttempts
    ensures Awaits(run[k + 1], p, user, code, expires, attempts + (if steps[k].Verify? && steps[k].user == user then 1 else 0))
  {
    RunKeepsInv(cfg, run, steps, k);
    StepAwaits(cfg, run[k], steps[k], p, user, code, expires, attempts);
  }

  lemma GuessesStep(steps: seq<Step>, from: nat, n: nat, user: nat)
    requires from < n <= |steps|
    ensures Guesses(steps, from, n, user) ==
            Guesses(steps, from, n - 1, user) + (if steps[n - 1].Verify? && steps[n - 1].user == user then 1 else 0)
  {
  }

  lemma RequestAwaits(cfg: Config, codes: seq<Code>, user: nat, code: string, now: int)
    requires Inv(cfg, codes)
    ensures Awaits(Next(cfg, codes, Request(user, code, now)), |codes|, user, code, now + cfg.lifetime, 0)
  {
    RecentOpenAtMostOne(cfg, codes, user, now);
  }

  lemma {:induction false} RunAwaits(cfg: Config, run: seq<seq<Code>>, steps: seq<Step>, m: nat, n: nat,
                                     user: nat, code: string, now: int)
    requires IsRun(cfg, run, steps) && m < n < |run| && steps[m] == Request(user, code, now)
    requires Waiting(steps, m + 1, n, user, code, now + cfg.lifetime)
    requires Guesses(steps, m + 1, n, user) <= cfg.maxAttempts
    ensures Awaits(run[n], |run[m]|, user, code, now + cfg.lifetime, Guesses(steps, m + 1, n, user))
  {
    if n == m + 1 {
      RunKeepsInv(cfg, run, steps, m);
      RequestAwaits(cfg, run[m], user, code, now);
    } else {
      GuessesStep(steps, m + 1, n, user);
      RunAwaits(cfg, run, steps, m, n - 1, user, code, now);
      RunStepAwaits(cfg, run, steps, n - 1, |run[m]|, user, code, now + cfg.lifetime, Guesses(steps, m + 1, n - 1, user));
    }
  }

  /** The code a user has just requested redeems exactly with the right guess, until its
      lifetime is over and while fewer wrong guesses than allowed have been made, whatever
      other users do and whatever is cleaned up. */
  lemma RequestedCodeRedeems(cfg: Config, run: seq<seq<Code>>, steps: seq<Step>, m: nat, n: nat,
                             user: nat, code: string, now: int, guess: string, at: int)
    requires IsRun(cfg, run, steps) && m < n < |run| && steps[m] == Request(user, code, now)
    requires Waiting(steps, m + 1, n, user, code, now + cfg.lifetime)
    requires Guesses(steps, m + 1, n, user) <= cfg.maxAttempts
    ensures Answered(cfg, run[n], user, guess, at) == Redeemed <==>
            guess == code && at <= now + cfg.lifetime && Guesses(steps, m + 1, n, user) < cfg.maxAttempts
    ensures Answered(cfg, run[n], user, guess, at) != NoCode
  {
    RunAwaits(cfg, run, steps, m, n, user, code, now);
    RunKeepsInv(cfg, run, steps, n);
    var p := |run[m]|;
    assert Open(run[n][p], run[n][p].user) ==> LastOfUser(run[n], p);
    NewestIs(run[n], user, p);
  }

  // ---- the handlers as written ------------------------------------------

  class Table {
    const cfg: Config
    var codes: seq<Code>

    constructor (cfg: Config)
      ensures this.cfg == cfg && codes == []
    {
      this.cfg, codes := cfg, [];
    }

    method RequestCode(user: nat, code: string, now: int) returns (sent: bool)
      modifies this`codes
      ensures codes == Requested(cfg, old(codes), user, code, now)
      ensures sent <==> |codes| == |old(codes)| + 1
    {
      var count := 0;
      for i := 0 to |codes|
        invariant count == RecentOpen(codes[..i], user, now)
      {
        assert codes[..i + 1][..i] == codes[..i];
        if Open(codes[i], user) && codes[i].created > now - HOUR {
          count := count + 1;
        }
      }
      assert codes[..|codes|] == codes;
      if count >= 3 {
        return false;
      }
      ghost var before := codes;
      for i := 0 to |codes|
        invariant |codes| == |before|
        invariant forall k :: 0 <= k < |codes| ==> codes[k] == if k < i then Superseded(before, user)[k] else before[k]
      {
        if Open(codes[i], user) {
          codes := codes[i := codes[i].(used := true)];
        }
      }
      assert codes == Superseded(before, user);
      codes := codes + [Code(user, code, 0, now + cfg.lifetime, now, false, false, 0, 0, 0)];
      return true;
    }

    method VerifyCode(user: nat, guess: string, now: int) returns (outcome: Outcome)
      modifies this`codes
      ensures outcome == Answered(cfg, old(codes), user, guess, now)
      ensures codes == Verified(cfg, old(codes), user, guess, now)
    {
      var found := Newest(codes, user);
      if found.None? {
        return NoCode;
      }
      var i := found.value;
      var c := codes[i];
      if now > c.expires {
        codes := codes[i := c.(used := true)];
        return CodeExpired;
      }
      if c.attempts >= cfg.maxAttempts {
        codes := codes[i := c.(used := true)];
        return TooManyAttempts;
      }
      if c.code != guess {
        codes := codes[i := c.(attempts := c.attempts + 1, compares := c.compares + 1)];
        return WrongCode;
      }
      codes := codes[i := c.(used := true, compares := c.compares + 1, redeemed := c.redeemed + 1, redeemedAt := now)];
      return Redeemed;
    }
  }
}
