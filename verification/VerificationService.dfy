/** The verification calls as the program makes them: rows updated in place inside
    a transaction (apps/accounts/services.py). */
module VerificationServices {
  import opened Wrappers
  import opened VerificationCodes

  class VerificationService {
    const settings: Settings
    var codes: seq<Code>
    var successes: seq<nat>

    function State(): Store
      reads this
    {
      Store(codes, successes)
    }

    ghost predicate Valid()
      reads this
    {
      1 <= settings.maxAttempts && Inv(State(), settings)
    }

    constructor (settings: Settings)
      requires 1 <= settings.maxAttempts
      ensures Valid() && State() == Store([], []) && this.settings == settings
    {
      this.settings, codes, successes := settings, [], [];
    }

    method FirstNewest(keep: Code -> bool) returns (r: Option<nat>)
      ensures r == Newest(codes, keep)
    {
      r := None;
      for i := 0 to |codes|
        invariant r == Newest(codes[..i], keep)
      {
        assert codes[..i + 1][..i] == codes[..i];
        if keep(codes[i]) && (r == None || codes[r.value].createdAt <= codes[i].createdAt) {
          r := Some(i);
        }
      }
      assert codes[..|codes|] == codes;
    }

    method CloseActive(user: nat, purpose: nat, now: int)
      modifies this
      ensures successes == old(successes) && |codes| == |old(codes)|
      ensures forall i :: 0 <= i < |codes| ==> codes[i] == Closed(old(codes)[i], user, purpose, now)
    {
      for i := 0 to |codes|
        invariant successes == old(successes) && |codes| == |old(codes)|
        invariant forall j :: 0 <= j < |codes| ==> codes[j] == if j < i then Closed(old(codes)[j], user, purpose, now) else old(codes)[j]
      {
        if Active(codes[i], user, purpose) {
          codes := codes[i := codes[i].(consumedAt := Some(now), ending := Some(Replaced))];
        }
      }
    }

    method Issue(user: nat, purpose: nat, secret: string, now: int, created: int, asked: int) returns (code: nat, retryAfter: int)
      requires Valid()
      modifies this
      ensures Valid() && (State(), code) == VerificationCodes.Issue(old(State()), user, purpose, secret, now, created, settings)
      ensures code < |codes| && retryAfter == RetryAfter(codes[code], asked, settings)
      ensures codes[code].createdAt <= asked ==> 0 <= retryAfter <= settings.cooldown
    {
      IssueKeeps(State(), user, purpose, secret, now, created, settings);
      var recent := FirstNewest((c: Code) => Recent(c, user, purpose, now, settings));
      if recent.Some? {
        code := recent.value;
      } else {
        CloseActive(user, purpose, now);
        code := |codes|;
        codes := codes + [Code(user, purpose, secret, created, now + settings.ttl * SECOND, 0, None, None)];
        assert State() == Replace(old(State()), |old(codes)|, user, purpose, secret, now, created, settings);
      }
      retryAfter := RetryAfter(codes[code], asked, settings);
      if codes[code].createdAt <= asked {
        RetryAfterInRange(codes[code], asked, settings);
      }
    }

    /** The refusal is raised after the transaction, so that the failure is kept. */
    method Consume(user: nat, purpose: nat, code: string, now: int, raises: bool) returns (outcome: Outcome)
      requires Valid()
      modifies this
      ensures Valid() && (State(), outcome) == VerificationCodes.Consume(old(State()), user, purpose, code, now, raises, settings)
    {
      StepKeeps(State(), DoConsume(user, purpose, code, now, raises), settings);
      var found := FirstNewest((c: Code) => Presentable(c, user, purpose, now));
      if found.None? {
        return Rejected;
      }
      var i, saved := found.value, codes;
      if codes[i].secret != code {
        var record := codes[i].(attempts := codes[i].attempts + 1);
        if record.attempts >= settings.maxAttempts {
          record := record.(consumedAt := Some(now), ending := Some(Exhausted));
        }
        codes := codes[i := record];
        return Rejected;
      }
      codes := codes[i := codes[i].(consumedAt := Some(now), ending := Some(Succeeded))];
      if raises {
        codes := saved;
        return EffectRaised;
      }
      successes := successes + [i];
      outcome := Accepted(i);
    }
  }
}
