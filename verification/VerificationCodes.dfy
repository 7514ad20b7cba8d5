/** One-time codes sent by mail (VerificationService in apps/accounts/services.py).

    Times are in microseconds; the hash comparison is equality of codes, and the
    mail itself is not part of this model. */
module VerificationCodes {
  import opened Wrappers

  const SECOND: int := 1_000_000

  /** The three settings the service reads, the first two in seconds. */
  datatype Settings = Settings(cooldown: nat, ttl: nat, maxAttempts: nat)

  datatype Ending = Succeeded | Replaced | Exhausted

  /** `ending` is history: why the code was consumed. */
  datatype Code = Code(
    user: nat,
    purpose: nat,
    secret: string,
    createdAt: int,
    expiresAt: int,
    attempts: nat,
    consumedAt: Option<int>,
    ending: Option<Ending>)

  /** `successes` is history: the codes that opened something, in order. */
  datatype Store = Store(codes: seq<Code>, successes: seq<nat>)

  datatype Outcome = Accepted(code: nat) | Rejected | EffectRaised

  predicate Of(c: Code, user: nat, purpose: nat) {
    c.user == user && c.purpose == purpose
  }

  predicate Active(c: Code, user: nat, purpose: nat) {
    Of(c, user, purpose) && c.consumedAt == None
  }

  // ------------------------------------------------------------------------ issue

  /** The newest code that satisfies a filter: `order_by("-created_at").first()`. */
  function Newest(codes: seq<Code>, keep: Code -> bool): (r: Option<nat>)
    ensures match r
            case None => forall i :: 0 <= i < |codes| ==> !keep(codes[i])
            case Some(i) => i < |codes| && keep(codes[i])
                            && forall j :: 0 <= j < |codes| && keep(codes[j]) ==> codes[j].createdAt <= codes[i].createdAt
  {
    if codes == [] then None
    else
      var n := |codes| - 1;
      match Newest(codes[..n], keep)
      case None => if keep(codes[n]) then Some(n) else None
      case Some(i) => if keep(codes[n]) && codes[i].createdAt <= codes[n].createdAt then Some(n) else Some(i)
  }

  predicate Recent(c: Code, user: nat, purpose: nat, now: int, s: Settings) {
    Active(c, user, purpose) && c.expiresAt > now && c.createdAt > now - s.cooldown * SECOND
  }

  function Closed(c: Code, user: nat, purpose: nat, now: int): Code {
    if Active(c, user, purpose) then c.(consumedAt := Some(now), ending := Some(Replaced)) else c
  }

  /** Closes the active codes among the `seen` first rows and writes a new one. */
  function Replace(st: Store, seen: nat, user: nat, purpose: nat, secret: string, now: int, created: int, s: Settings): Store
    requires seen <= |st.codes|
  {
    st.(codes := seq(|st.codes|, i requires 0 <= i < |st.codes| => if i < seen then Closed(st.codes[i], user, purpose, now) else st.codes[i])
                 + [Code(user, purpose, secret, created, now + s.ttl * SECOND, 0, None, None)])
  }

  /** The code in force after `issue`: a recent one, or the new one. */
  function Issue(st: Store, user: nat, purpose: nat, secret: string, now: int, created: int, s: Settings): (Store, nat) {
    match Newest(st.codes, (c: Code) => Recent(c, user, purpose, now, s))
    case Some(i) => (st, i)
    case None => (Replace(st, |st.codes|, user, purpose, secret, now, created, s), |st.codes|)
  }

  function Ceiling(microseconds: int): int {
    -((-microseconds) / SECOND)
  }

  /** What the client is told to wait, in whole seconds rounded up. */
  function RetryAfter(c: Code, asked: int, s: Settings): int {
    var remaining := Ceiling(c.createdAt + s.cooldown * SECOND - asked);
    if remaining < 0 then 0 else remaining
  }

  // ---------------------------------------------------------------------- consume

  predicate Presentable(c: Code, user: nat, purpose: nat, now: int) {
    Active(c, user, purpose) && c.expiresAt > now
  }

  function Missed(c: Code, now: int, s: Settings): Code {
    var d := c.(attempts := c.attempts + 1);
    if d.attempts >= s.maxAttempts then d.(consumedAt := Some(now), ending := Some(Exhausted)) else d
  }

  /** A wrong code is recorded and then refused; a right one is consumed together
      with its effect, and a raising effect rolls both back. */
  function Consume(st: Store, user: nat, purpose: nat, code: string, now: int, raises: bool, s: Settings): (Store, Outcome) {
    match Newest(st.codes, (c: Code) => Presentable(c, user, purpose, now))
    case None => (st, Rejected)
    case Some(i) =>
      var c := st.codes[i];
      if c.secret != code then (st.(codes := st.codes[i := Missed(c, now, s)]), Rejected)
      else if raises then (st, EffectRaised)
      else
        (Store(st.codes[i := c.(consumedAt := Some(now), ending := Some(Succeeded))], st.successes + [i]), Accepted(i))
  }

  // ------------------------------------------------------------------------- runs

  datatype Op =
    | DoIssue(user: nat, purpose: nat, secret: string, now: int, created: int)
    | DoConsume(user: nat, purpose: nat, code: string, now: int, raises: bool)

  function Step(st: Store, op: Op, s: Settings): Store {
    match op
    case DoIssue(user, purpose, secret, now, created) => Issue(st, user, purpose, secret, now, created, s).0
    case DoConsume(user, purpose, code, now, raises) => Consume(st, user, purpose, code, now, raises, s).0
  }

  function Run(st: Store, ops: seq<Op>, s: Settings): Store {
    if ops == [] then st else Step(Run(st, ops[..|ops| - 1], s), ops[|ops| - 1], s)
  }

  ghost predicate OneActive(codes: seq<Code>, user: nat, purpose: nat) {
    forall i, j :: 0 <= i < j < |codes| && Active(codes[i], user, purpose) ==> !Active(codes[j], user, purpose)
  }

  /** Each code's fields tell its whole story. */
  predicate Coherent(c: Code, s: Settings) {
    && (c.consumedAt == None <==> c.ending == None)
    && c.attempts <= s.maxAttempts
    && (c.attempts == s.maxAttempts <==> c.ending == Some(Exhausted))
  }

  ghost predicate Inv(st: Store, s: Settings) {
    && (forall user, purpose :: OneActive(st.codes, user, purpose))
    && (forall i :: 0 <= i < |st.codes| ==> Coherent(st.codes[i], s))
    && (forall k :: 0 <= k < |st.successes| ==> st.successes[k] < |st.codes|)
    && (forall i :: 0 <= i < |st.codes| ==> (i in st.successes <==> st.codes[i].ending == Some(Succeeded)))
    && (forall k, l :: 0 <= k < l < |st.successes| ==> st.successes[k] != st.successes[l])
  }

  lemma IssueKeeps(st: Store, user: nat, purpose: nat, secret: string, now: int, created: int, s: Settings)
    requires Inv(st, s) && 1 <= s.maxAttempts
    ensures Inv(Issue(st, user, purpose, secret, now, created, s).0, s)
  {
    var v := Issue(st, user, purpose, secret, now, created, s).0;
    if v != st {
      var n := |st.codes|;
      assert forall i :: 0 <= i < n ==> v.codes[i] == Closed(st.codes[i], user, purpose, now);
      forall u, p, i, j | 0 <= i < j < |v.codes| && Active(v.codes[i], u, p) ensures !Active(v.codes[j], u, p) {
        assert OneActive(st.codes, u, p);
        assert Active(st.codes[i], u, p);
      }
    }
  }

  lemma OneCodeMoves(st: Store, i: nat, c: Code, s: Settings)
    requires Inv(st, s) && i < |st.codes| && Coherent(c, s)
    requires c.user == st.codes[i].user && c.purpose == st.codes[i].purpose
    requires st.codes[i].consumedAt == None && c.ending != Some(Succeeded)
    ensures Inv(st.(codes := st.codes[i := c]), s)
  {
    var codes := st.codes[i := c];
    forall u, p ensures OneActive(codes, u, p) {
      assert OneActive(st.codes, u, p);
    }
  }

  lemma SuccessKeeps(st: Store, i: nat, c: Code, s: Settings)
    requires Inv(st, s) && i < |st.codes| && Coherent(c, s)
    requires c.user == st.codes[i].user && c.purpose == st.codes[i].purpose
    requires st.codes[i].consumedAt == None && c.ending == Some(Succeeded)
    ensures Inv(Store(st.codes[i := c], st.successes + [i]), s)
  {
    var v := Store(st.codes[i := c], st.successes + [i]);
    forall u, p ensures OneActive(v.codes, u, p) {
      assert OneActive(st.codes, u, p);
    }
    assert i !in st.successes;
    forall j | 0 <= j < |v.codes| ensures j in v.successes <==> v.codes[j].ending == Some(Succeeded) {
      assert j in v.successes <==> j in st.successes || j == i;
    }
  }

  lemma StepKeeps(st: Store, op: Op, s: Settings)
    requires Inv(st, s) && 1 <= s.maxAttempts
    ensures Inv(Step(st, op, s), s)
  {
    match op
    case DoIssue(user, purpose, secret, now, created) => IssueKeeps(st, user, purpose, secret, now, created, s);
    case DoConsume(user, purpose, code, now, raises) =>
      match Newest(st.codes, (c: Code) => Presentable(c, user, purpose, now))
      case None =>
      case Some(i) =>
        var c := st.codes[i];
        assert Coherent(c, s);
        if c.secret != code {
          OneCodeMoves(st, i, Missed(c, now, s), s);
        } else if !raises {
          SuccessKeeps(st, i, c.(consumedAt := Some(now), ending := Some(Succeeded)), s);
        }
  }

  /** Over every run: at most one unconsumed code per user and purpose, an
      unconsumed code has failed fewer times than the limit, a code closed by the
      limit is one that reached it, and no code succeeds twice. */
  lemma {:induction false} RunKeeps(ops: seq<Op>, s: Settings)
    requires 1 <= s.maxAttempts
    ensures Inv(Run(Store([], []), ops, s), s)
  {
    if ops != [] {
      RunKeeps(ops[..|ops| - 1], s);
      StepKeeps(Run(Store([], []), ops[..|ops| - 1], s), ops[|ops| - 1], s);
    }
  }

  // ------------------------------------------------------------- one code's life

  /** What may happen to a code: nothing once consumed; before that, failures or an end. */
  predicate Evolves(a: Code, b: Code) {
    && (a.consumedAt.Some? ==> b == a)
    && b == a.(attempts := b.attempts, consumedAt := b.consumedAt, ending := b.ending)
    && a.attempts <= b.attempts
  }

  lemma StepEvolves(st: Store, op: Op, s: Settings)
    ensures |st.codes| <= |Step(st, op, s).codes|
    ensures st.successes <= Step(st, op, s).successes
    ensures forall i :: 0 <= i < |st.codes| ==> Evolves(st.codes[i], Step(st, op, s).codes[i])
  {
  }

  lemma {:induction false} RunEvolves(st: Store, ops: seq<Op>, s: Settings)
    ensures |st.codes| <= |Run(st, ops, s).codes|
    ensures st.successes <= Run(st, ops, s).successes
    ensures forall i :: 0 <= i < |st.codes| ==> Evolves(st.codes[i], Run(st, ops, s).codes[i])
  {
    if ops != [] {
      var before := Run(st, ops[..|ops| - 1], s);
      RunEvolves(st, ops[..|ops| - 1], s);
      StepEvolves(before, ops[|ops| - 1], s);
      forall i | 0 <= i < |st.codes| ensures Evolves(st.codes[i], Run(st, ops, s).codes[i]) {
        assert Evolves(st.codes[i], before.codes[i]);
      }
    }
  }

  /** A code that has succeeded, was replaced or was closed never opens anything
      again, whatever is called afterwards; nor does an expired one. */
  lemma DeadCodesStayDead(st: Store, ops: seq<Op>, user: nat, purpose: nat, code: string, now: int, raises: bool, s: Settings)
    ensures match Consume(Run(st, ops, s), user, purpose, code, now, raises, s).1
            case Accepted(i) =>
              && i < |Run(st, ops, s).codes| && now < Run(st, ops, s).codes[i].expiresAt
              && (i < |st.codes| ==>
                    && st.codes[i].consumedAt == None && now < st.codes[i].expiresAt
                    && st.codes[i].secret == code && Of(st.codes[i], user, purpose))
            case _ => true
  {
    RunEvolves(st, ops, s);
    match Consume(Run(st, ops, s), user, purpose, code, now, raises, s).1
    case Accepted(i) =>
      if i < |st.codes| {
        assert Evolves(st.codes[i], Run(st, ops, s).codes[i]);
      }
    case _ =>
  }

  /** The one code in force decides: the right code is accepted, a wrong one costs
      an attempt that stays written, a raising effect leaves everything as it was,
      and without a code in force nothing changes. */
  lemma ConsumeMeaning(st: Store, user: nat, purpose: nat, code: string, now: int, raises: bool, s: Settings, i: nat)
    requires Inv(st, s) && i < |st.codes| && Presentable(st.codes[i], user, purpose, now)
    ensures var (v, outcome) := Consume(st, user, purpose, code, now, raises, s);
            && (st.codes[i].secret == code && !raises <==> outcome == Accepted(i))
            && (st.codes[i].secret == code && raises <==> outcome == EffectRaised)
            && (outcome == EffectRaised ==> v == st)
            && (outcome == Rejected ==>
                  && |v.codes| == |st.codes| && v.codes[i].attempts == st.codes[i].attempts + 1
                  && (v.codes[i].consumedAt.Some? <==> v.codes[i].attempts == s.maxAttempts))
            && forall j :: 0 <= j < |st.codes| && j != i ==> j < |v.codes| && v.codes[j] == st.codes[j]
  {
    assert OneActive(st.codes, user, purpose);
    assert Coherent(st.codes[i], s);
  }

  // ---------------------------------------------------- what a caller can rely on

  /** An acceptance consumes: the code answered was of this user and purpose, open,
      unexpired and the one presented; it is closed at that instant and no other row
      moves. */
  lemma AcceptedIsConsumed(st: Store, user: nat, purpose: nat, code: string, now: int, raises: bool, s: Settings)
    ensures var (v, outcome) := Consume(st, user, purpose, code, now, raises, s);
            outcome.Accepted? ==>
              var i := outcome.code;
              && i < |st.codes| && |v.codes| == |st.codes| && !raises
              && st.codes[i].user == user && st.codes[i].purpose == purpose && st.codes[i].secret == code
              && st.codes[i].consumedAt == None && now < st.codes[i].expiresAt
              && v.codes[i].consumedAt == Some(now)
              && forall j :: 0 <= j < |st.codes| && j != i ==> v.codes[j] == st.codes[j]
  {
  }

  /** Once consumed, closed for ever. */
  lemma ConsumedIsRefused(st: Store, ops: seq<Op>, i: nat, user: nat, purpose: nat, code: string, now: int, raises: bool, s: Settings)
    requires i < |st.codes| && st.codes[i].consumedAt.Some?
    ensures Consume(Run(st, ops, s), user, purpose, code, now, raises, s).1 != Accepted(i)
  {
    RunEvolves(st, ops, s);
    assert Evolves(st.codes[i], Run(st, ops, s).codes[i]);
    AcceptedIsConsumed(Run(st, ops, s), user, purpose, code, now, raises, s);
  }

  /** What the `k`-th call of a run answers, when it presents a code. */
  function Answer(st: Store, ops: seq<Op>, k: nat, s: Settings): Option<Outcome>
    requires k < |ops|
  {
    match ops[k]
    case DoIssue(_, _, _, _, _) => None
    case DoConsume(user, purpose, code, now, raises) =>
      Some(Consume(Run(st, ops[..k], s), user, purpose, code, now, raises, s).1)
  }

  lemma {:induction false} RunFrom(st: Store, first: seq<Op>, next: seq<Op>, s: Settings)
    ensures Run(st, first + next, s) == Run(Run(st, first, s), next, s)
  {
    if next == [] {
      assert first + next == first;
    } else {
      assert (first + next)[..|first + next| - 1] == first + next[..|next| - 1];
      RunFrom(st, first, next[..|next| - 1], s);
    }
  }

  /** Over any run from any rows, no two calls are answered by one code. */
  lemma AcceptedOnce(st: Store, ops: seq<Op>, k: nat, l: nat, i: nat, s: Settings)
    requires k < l < |ops| && Answer(st, ops, k, s) == Some(Accepted(i))
    ensures Answer(st, ops, l, s) != Some(Accepted(i))
  {
    var before, after := Run(st, ops[..k], s), Run(st, ops[..k + 1], s);
    assert ops[..k + 1][..k] == ops[..k];
    AcceptedIsConsumed(before, ops[k].user, ops[k].purpose, ops[k].code, ops[k].now, ops[k].raises, s);
    assert after == Step(before, ops[k], s);
    assert ops[..l] == ops[..k + 1] + ops[k + 1..l];
    RunFrom(st, ops[..k + 1], ops[k + 1..l], s);
    if ops[l].DoConsume? {
      ConsumedIsRefused(after, ops[k + 1..l], i, ops[l].user, ops[l].purpose, ops[l].code, ops[l].now, ops[l].raises, s);
    }
  }

  /** Within the cooldown of an open, unexpired code, asking again gives a code like
      that back and changes nothing. */
  lemma AskedTooSoon(st: Store, i: nat, secret: string, now: int, created: int, s: Settings)
    requires i < |st.codes| && st.codes[i].consumedAt == None && now < st.codes[i].expiresAt
    requires now < st.codes[i].createdAt + s.cooldown * SECOND
    ensures var (v, given) := Issue(st, st.codes[i].user, st.codes[i].purpose, secret, now, created, s);
            && v == st && given < |st.codes|
            && st.codes[given].user == st.codes[i].user && st.codes[given].purpose == st.codes[i].purpose
            && st.codes[given].consumedAt == None && now < st.codes[given].expiresAt
            && now < st.codes[given].createdAt + s.cooldown * SECOND
            && st.codes[i].createdAt <= st.codes[given].createdAt
  {
    assert Recent(st.codes[i], st.codes[i].user, st.codes[i].purpose, now, s);
  }

  /** Otherwise a new row is written, valid for ttl seconds, and every code of this
      user and purpose still open is closed at that instant; nothing else moves. */
  lemma IssueWrites(st: Store, user: nat, purpose: nat, secret: string, now: int, created: int, s: Settings)
    requires forall i :: 0 <= i < |st.codes| && st.codes[i].user == user && st.codes[i].purpose == purpose && st.codes[i].consumedAt == None ==>
                           st.codes[i].expiresAt <= now || st.codes[i].createdAt + s.cooldown * SECOND <= now
    ensures var (v, given) := Issue(st, user, purpose, secret, now, created, s);
            && given == |st.codes| && |v.codes| == |st.codes| + 1 && v.successes == st.successes
            && v.codes[given].user == user && v.codes[given].purpose == purpose && v.codes[given].secret == secret
            && v.codes[given].createdAt == created && v.codes[given].expiresAt == now + s.ttl * SECOND
            && v.codes[given].attempts == 0 && v.codes[given].consumedAt == None
            && forall i :: 0 <= i < |st.codes| ==>
                 if st.codes[i].user == user && st.codes[i].purpose == purpose && st.codes[i].consumedAt == None
                 then v.codes[i].consumedAt == Some(now) && v.codes[i].attempts == st.codes[i].attempts
                 else v.codes[i] == st.codes[i]
  {
    assert Newest(st.codes, (c: Code) => Recent(c, user, purpose, now, s)) == None;
  }

  /** What was issued opens: the code in force after a call is accepted, when it is
      the one presented, exactly until it expires. */
  lemma IssuedOpens(st: Store, user: nat, purpose: nat, secret: string, now: int, created: int, later: int, s: Settings)
    requires Inv(st, s) && 1 <= s.maxAttempts
    ensures var (v, given) := Issue(st, user, purpose, secret, now, created, s);
            && given < |v.codes|
            && (Consume(v, user, purpose, v.codes[given].secret, later, false, s).1 == Accepted(given) <==> later < v.codes[given].expiresAt)
  {
    IssueKeeps(st, user, purpose, secret, now, created, s);
    var (v, given) := Issue(st, user, purpose, secret, now, created, s);
    assert Active(v.codes[given], user, purpose);
    if later < v.codes[given].expiresAt {
      ConsumeMeaning(v, user, purpose, v.codes[given].secret, later, false, s, given);
    }
    AcceptedIsConsumed(v, user, purpose, v.codes[given].secret, later, false, s);
  }

  /** A wrong code presented against the one in force costs that one attempt, and
      closes it at the limit. */
  lemma WrongCodeCosts(st: Store, i: nat, code: string, now: int, raises: bool, s: Settings)
    requires Inv(st, s) && i < |st.codes| && st.codes[i].consumedAt == None && now < st.codes[i].expiresAt && code != st.codes[i].secret
    ensures var (v, outcome) := Consume(st, st.codes[i].user, st.codes[i].purpose, code, now, raises, s);
            && outcome == Rejected && |v.codes| == |st.codes| && v.successes == st.successes
            && v.codes[i].attempts == st.codes[i].attempts + 1
            && v.codes[i].consumedAt == (if st.codes[i].attempts + 1 >= s.maxAttempts then Some(now) else None)
            && v.codes[i].secret == st.codes[i].secret && v.codes[i].expiresAt == st.codes[i].expiresAt
  {
    assert Presentable(st.codes[i], st.codes[i].user, st.codes[i].purpose, now);
    ConsumeMeaning(st, st.codes[i].user, st.codes[i].purpose, code, now, raises, s, i);
  }

  /** The delay told to the client lies between zero and the cooldown, equals the
      cooldown for a code just written, is enough (after waiting it, a new code would
      be issued), and is not a second too long. */
  lemma RetryAfterInRange(c: Code, asked: int, s: Settings)
    requires c.createdAt <= asked
    ensures 0 <= RetryAfter(c, asked, s) <= s.cooldown
    ensures asked - c.createdAt < SECOND ==> RetryAfter(c, asked, s) == s.cooldown
    ensures forall user, purpose, later :: asked + RetryAfter(c, asked, s) * SECOND <= later ==> !Recent(c, user, purpose, later, s)
    ensures RetryAfter(c, asked, s) > 0 ==> asked + (RetryAfter(c, asked, s) - 1) * SECOND < c.createdAt + s.cooldown * SECOND
  {
  }

  // ------------------------------------------------------------- two issues at once

  /** `issue` takes no lock: its update only sees the rows committed before it
      began. It then leaves one active code exactly when no active code of the
      same user and purpose was committed in between. */
  lemma IssueKeepsOneIffNothingCameBetween(st: Store, seen: nat, user: nat, purpose: nat, secret: string, now: int, created: int, s: Settings)
    requires seen <= |st.codes|
    ensures OneActive(Replace(st, seen, user, purpose, secret, now, created, s).codes, user, purpose) <==>
            forall i :: seen <= i < |st.codes| ==> !Active(st.codes[i], user, purpose)
  {
    var codes := Replace(st, seen, user, purpose, secret, now, created, s).codes;
    assert Active(codes[|st.codes|], user, purpose);
    if OneActive(codes, user, purpose) {
      forall i | seen <= i < |st.codes| ensures !Active(st.codes[i], user, purpose) {
        assert codes[i] == st.codes[i];
      }
    }
  }
}
