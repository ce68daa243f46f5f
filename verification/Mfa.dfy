/** One user's second factors (internal/mfa/mfa.go, internal/mfa/factors.go):
    the authenticator app, security keys and recovery codes. Store and cache
    calls may fail without effect; the codes of a seed and the recovery codes
    are abstract, new seeds and new recovery codes are new. */
module Mfa {
  import opened Basics

  const PERIOD := 30
  const SKEW := 1
  const ENROL_TTL := 600
  const RECOVERY_COUNT := 10

  type Seed = int
  type Code = int

  datatype Error = Nil | NoPending | InvalidCode | NotEnrolled | Required | NotFound | Unavailable

  /** What the user typed: six digits or so, or a recovery code. */
  datatype Input = Digits(text: string) | Recovery(code: Code) | Malformed

  datatype Method = Otp | ByRecovery

  datatype Pending = Pending(seed: Seed, until: int)

  datatype Row = Row(code: Code, used: bool)

  /** A step of the app that was accepted, and under which enrolment. */
  datatype Accept = Accept(enrolment: nat, seed: Seed, step: int)

  ghost predicate Increasing(acc: seq<Accept>) {
    forall i, j :: 0 <= i < j < |acc| && acc[i].enrolment == acc[j].enrolment ==> acc[i].step < acc[j].step
  }

  /** Accepted steps belong to enrolments so far; those of the running one are
      at most `last`. */
  ghost predicate Bounded(acc: seq<Accept>, enrolment: nat, last: int) {
    forall i :: 0 <= i < |acc| ==> acc[i].enrolment <= enrolment && (acc[i].enrolment == enrolment ==> acc[i].step <= last)
  }

  /** Each seed was confirmed once, and accepted steps name that enrolment. */
  ghost predicate OncePerSeed(acc: seq<Accept>, confirmed: map<Seed, nat>) {
    forall i :: 0 <= i < |acc| ==> acc[i].seed in confirmed && confirmed[acc[i].seed] == acc[i].enrolment
  }

  lemma Push(acc: seq<Accept>, enrolment: nat, last: int, a: Accept)
    requires Increasing(acc) && Bounded(acc, enrolment, last) && a.enrolment == enrolment && a.step > last
    ensures Increasing(acc + [a]) && Bounded(acc + [a], enrolment, a.step)
  {
  }

  /** The accepted steps of each seed strictly increase. */
  ghost predicate PerSeed(acc: seq<Accept>) {
    forall i, j :: 0 <= i < j < |acc| && acc[i].seed == acc[j].seed ==> acc[i].step < acc[j].step
  }

  /** Every step accepted for the seed lies before. */
  ghost predicate AllBefore(acc: seq<Accept>, s: Seed, step: int) { forall i :: 0 <= i < |acc| && acc[i].seed == s ==> acc[i].step < step }

  lemma PerSeedPush(acc: seq<Accept>, a: Accept)
    ensures PerSeed(acc + [a]) <==> PerSeed(acc) && AllBefore(acc, a.seed, a.step)
  {
    var b := acc + [a];
    assert forall i :: 0 <= i < |acc| ==> b[i] == acc[i];
    if PerSeed(b) {
      forall i | 0 <= i < |acc| && acc[i].seed == a.seed ensures acc[i].step < a.step { assert b[i].seed == b[|acc|].seed; }
      forall i, j | 0 <= i < j < |acc| && acc[i].seed == acc[j].seed ensures acc[i].step < acc[j].step { assert b[i].seed == b[j].seed; }
    }
  }

  lemma Begin(acc: seq<Accept>, enrolment: nat, last: int, a: Accept)
    requires Increasing(acc) && Bounded(acc, enrolment, last) && a.enrolment == enrolment + 1
    ensures Increasing(acc + [a]) && Bounded(acc + [a], enrolment + 1, a.step)
  {
  }

  ghost predicate FreshCodes(codes: seq<Row>, spent: set<Code>, next: Code) {
    && (forall i :: 0 <= i < |codes| ==> codes[i].code < next && (!codes[i].used ==> codes[i].code !in spent))
    && (forall i, j :: 0 <= i < j < |codes| ==> codes[i].code != codes[j].code)
    && (forall c | c in spent :: c < next)
  }

  /** Which of Confirm's calls succeed: listing the keys, storing the seed,
      storing the counter, dropping the pending seed, storing new codes. */
  datatype Calls = Calls(list: bool, seed: bool, counter: bool, drop: bool, codes: bool)

  const ALL_UP := Calls(true, true, true, true, true)

  class Factors {
    const totp: (Seed, int) -> string
    var now: nat
    var required: bool
    var enabled: bool
    var seed: Option<Seed>
    var last: int
    var pending: Option<Pending>
    var codes: seq<Row>
    var keys: map<string, bool>   // flagged as possibly cloned?
    var nextSeed: Seed
    var nextCode: Code
    ghost var enrolment: nat
    ghost var confirmed: map<Seed, nat>
    ghost var accepted: seq<Accept>
    ghost var spent: set<Code>
    ghost var reused: bool        // some Confirm adopted a seed confirmed before

    /** A user without factors. */
    constructor (f: (Seed, int) -> string, at: nat, mustHave: bool)
      ensures Valid() && totp == f && now == at && required == mustHave && Usable() == 0
      ensures accepted == [] && spent == {} && confirmed == map[] && !reused && pending.None? && keys == map[] && nextSeed == 0
    {
      totp, now, required, enabled, seed, last := f, at, mustHave, false, None, 0;
      pending, codes, keys, nextSeed, nextCode := None, [], map[], 0, 0;
      enrolment, confirmed, accepted, spent, reused := 0, map[], [], {}, false;
      new;
      NoKeys(keys);
    }

    ghost predicate Valid()
      reads this
    {
      && (!enabled ==> seed.None?)
      && Increasing(accepted) && Bounded(accepted, enrolment, last)
      && FreshCodes(codes, spent, nextCode)
      && (forall s | s in confirmed :: s < nextSeed && confirmed[s] <= enrolment)
      && (seed.Some? ==> seed.value in confirmed)
      && (pending.Some? ==> pending.value.seed < nextSeed)
      && (!reused ==> OncePerSeed(accepted, confirmed) && (seed.Some? ==> confirmed[seed.value] == enrolment))
    }

    /** The factors that can complete a sign-in. */
    function Usable(): nat
      reads this
    {
      (if seed.Some? then 1 else 0) + UsableKeys()
    }

    function UsableKeys(): nat
      reads this
    {
      |set k | k in keys && !keys[k]|
    }

    static method Reach() returns (up: bool) { up := *; }

    // ----- the app ------------------------------------------------------------------------

    /** The first step within the skew whose code it is. */
    method Match(s: Seed, text: string) returns (step: Option<int>)
      ensures step.Some? ==> |text| == 6 && First(now, totp, s, text, step.value)
      ensures step.Some? <==> Shows(now, totp, s, text)
      ensures step.Some? <==> |text| == 6 && (totp(s, now / 30 - 1) == text || totp(s, now / 30) == text || totp(s, now / 30 + 1) == text)
      ensures step.Some? ==> totp(s, step.value) == text && now / 30 - 1 <= step.value <= now / 30 + 1
    {
      if |text| != 6 { return None; }
      var delta := -SKEW;
      while delta <= SKEW
        invariant -SKEW <= delta <= SKEW + 1
        invariant forall x | Near(now, x) && x < now / PERIOD + delta :: totp(s, x) != text
      {
        var t := now + delta * PERIOD;
        if totp(s, t / PERIOD) == text {
          return Some(t / PERIOD);
        }
        delta := delta + 1;
      }
      assert forall x | Near(now, x) :: totp(s, x) != text;
      step := None;
    }

    /** The outcome of the cache call is an input. */
    method Enrol(up: bool) returns (err: Error)
      requires Valid()
      modifies this`pending, this`nextSeed
      ensures Valid() && (err == Nil <==> up)
      ensures err == Nil ==> pending == Some(Pending(old(nextSeed), now + 600)) && old(nextSeed) !in confirmed
      ensures err != Nil ==> pending == old(pending)
    {
      if !up { return Unavailable; }
      pending, nextSeed := Some(Pending(nextSeed, now + ENROL_TTL)), nextSeed + 1;
      err := Nil;
    }

    /** SetMFA with a seed: a new enrolment, whose counter starts at zero. */
    method Adopt(s: Seed)
      requires Valid() && s < nextSeed
      modifies this`enabled, this`seed, this`last, this`enrolment, this`confirmed, this`reused
      ensures Valid() && enabled && seed == Some(s) && last == 0 && enrolment == old(enrolment) + 1
      ensures confirmed == old(confirmed)[s := enrolment] && reused == (old(reused) || s in old(confirmed))
      ensures Bounded(accepted, old(enrolment), old(last))
    {
      enabled, seed, last := true, Some(s), 0;
      enrolment, reused := enrolment + 1, reused || s in confirmed;
      confirmed := confirmed[s := enrolment];
    }

    /** SetMFACounter for the step the enrolment began with. */
    method FirstStep(s: Seed, step: int, ghost l: int)
      requires Valid() && seed == Some(s) && last == 0 && enrolment > 0 && Bounded(accepted, enrolment - 1, l)
      modifies this`last, this`accepted
      ensures Valid() && last == step && accepted == old(accepted) + [Accept(enrolment, s, step)]
    {
      Begin(accepted, enrolment - 1, l, Accept(enrolment, s, step));
      last, accepted := step, accepted + [Accept(enrolment, s, step)];
    }

    ghost predicate Live()
      reads this
    {
      pending.Some? && now < pending.value.until
    }

    /** The seed is adopted and its first step is used up. */
    method AdoptPending(s: Seed, step: int, counter: bool)
      requires Valid() && s < nextSeed
      modifies this`enabled, this`seed, this`last, this`enrolment, this`confirmed, this`reused, this`accepted
      ensures Valid() && Adopted(s) && confirmed == old(confirmed)[s := enrolment] && reused == (old(reused) || s in old(confirmed))
      ensures counter ==> accepted == old(accepted) + [Accept(enrolment, s, step)] && last == step
      ensures !counter ==> accepted == old(accepted) && last == 0
    {
      Adopt(s);
      if counter { FirstStep(s, step, old(last)); }
    }

    /** The pending seed is dropped, and without security keys the recovery
        codes are made anew. */
    method Finish(drop: bool, renew: bool) returns (err: Error)
      requires Valid()
      modifies this`pending, this`codes, this`nextCode
      ensures Valid() && pending == if drop then None else old(pending)
      ensures err == if keys == map[] ==> renew then Nil else Unavailable
      ensures err == Nil && keys == map[] ==> |codes| == RECOVERY_COUNT
      ensures err != Nil || keys != map[] ==> codes == old(codes)
    {
      if drop { pending := None; }
      err := Nil;
      if keys == map[] { err := Regenerated(renew); }
    }

    ghost predicate Adopted(s: Seed)
      reads this`enabled, this`seed
    {
      enabled && seed == Some(s)
    }

    /** Confirm: the pending seed becomes the user's. The outcomes of its store
        and cache calls are inputs; after a failed one the later ones are not
        made, except that a pending seed which cannot be dropped stays. */
    method Confirm(text: string, up: Calls) returns (err: Error, ghost step: int)
      requires Valid()
      modifies this`enabled, this`seed, this`last, this`enrolment, this`confirmed, this`reused, this`accepted, this`pending, this`codes, this`nextCode
      ensures Valid()
      ensures err == NoPending <==> !old(Live())
      ensures err == InvalidCode <==> old(Live()) && !Shows(now, totp, old(pending).value.seed, text)
      ensures err != NoPending && err != InvalidCode ==>
                err == if up.list && up.seed && up.counter && (keys == map[] ==> up.codes) then Nil else Unavailable
      ensures err == NoPending || err == InvalidCode || !up.list || !up.seed ==>
                unchanged(`seed, `enabled, `last, `pending, `accepted, `confirmed, `reused, `enrolment, `codes)
      ensures old(Live()) && err != InvalidCode && up.list && up.seed ==>
                var s := old(pending).value.seed;
                && Adopted(s) && First(now, totp, s, text, step) && confirmed == old(confirmed)[s := enrolment]
                && reused == (old(reused) || s in old(confirmed))
                && (up.counter ==> accepted == old(accepted) + [Accept(enrolment, s, step)] && last == step)
                && (!up.counter ==> accepted == old(accepted) && last == 0)
                && pending == (if up.counter && up.drop then None else old(pending))
      ensures err == Nil && keys == map[] ==> |codes| == RECOVERY_COUNT
      ensures err != Nil || keys != map[] ==> codes == old(codes)
    {
      step := 0;
      if pending.None? || now >= pending.value.until { return NoPending, step; }
      var s := pending.value.seed;
      var found := Match(s, text);
      if found.None? { return InvalidCode, step; }
      step := found.value;
      if !up.list || !up.seed { return Unavailable, step; }
      AdoptPending(s, found.value, up.counter);
      if !up.counter { return Unavailable, step; }
      err := Finish(up.drop, up.codes);
    }

    /** Ten new codes, or the old ones as they are. */
    method Regenerated(up: bool) returns (err: Error)
      requires FreshCodes(codes, spent, nextCode)
      modifies this`codes, this`nextCode
      ensures FreshCodes(codes, spent, nextCode) && nextCode >= old(nextCode)
      ensures err == (if up then Nil else Unavailable)
      ensures err == Nil ==> |codes| == RECOVERY_COUNT && forall i :: 0 <= i < |codes| ==> !codes[i].used && codes[i].code >= old(nextCode)
      ensures err != Nil ==> codes == old(codes)
    {
      var made: seq<Row> := [];
      for i := 0 to RECOVERY_COUNT
        invariant |made| == i && forall j :: 0 <= j < i ==> made[j] == Row(nextCode + j, false)
      {
        made := made + [Row(nextCode + i, false)];
      }
      nextCode := nextCode + RECOVERY_COUNT;
      if !up { return Unavailable; }
      codes := made;
      err := Nil;
    }

    // ----- verifying ------------------------------------------------------------------------

    /** A step of the app: only one after the last accepted. The outcome of the
        store call is an input. */
    method VerifyStep(text: string, up: bool) returns (err: Error)
      requires Valid()
      modifies this`last, this`accepted
      ensures Valid()
      ensures err == Nil ==> seed.Some? && last > old(last) && First(now, totp, seed.value, text, last) && accepted == old(accepted) + [Accept(enrolment, seed.value, last)]
      ensures err != Nil ==> last == old(last) && accepted == old(accepted)
      ensures err == InvalidCode || err == if up then Nil else Unavailable
      ensures err != InvalidCode <==> seed.Some? && |text| == 6 && exists x :: First(now, totp, seed.value, text, x) && x > old(last)
    {
      if seed.None? { return InvalidCode; }
      var step := Match(seed.value, text);
      assert step.Some? ==> forall x | First(now, totp, seed.value, text, x) :: x == step.value;
      if step.None? || step.value <= last { return InvalidCode; }
      if !up { return Unavailable; }
      Push(accepted, enrolment, last, Accept(enrolment, seed.value, step.value));
      last, accepted := step.value, accepted + [Accept(enrolment, seed.value, step.value)];
      err := Nil;
    }

    /** A recovery code: one that was made, is current and was not used. */
    method VerifyRecovery(c: Code) returns (err: Error)
      requires Valid()
      modifies this`codes, this`spent
      ensures Valid() && |codes| == |old(codes)|
      ensures err == Nil ==> Row(c, false) in old(codes) && c !in old(spent) && spent == old(spent) + {c}
      ensures err == Nil ==> forall i :: 0 <= i < |codes| ==> codes[i] == if old(codes)[i].code == c then Row(c, true) else old(codes)[i]
      ensures err != Nil ==> err == InvalidCode && codes == old(codes) && spent == old(spent)
    {
      for i := 0 to |codes|
        invariant codes == old(codes) && spent == old(spent)
      {
        if codes[i].code == c && !codes[i].used {
          var up := Reach();
          if !up { return InvalidCode; }
          codes := codes[i := Row(c, true)];
          spent := spent + {c};
          return Nil;
        }
      }
      err := InvalidCode;
    }

    /** Verify: what completes a sign-in is a later step of the app, or a
        recovery code that never was accepted before. */
    method VerifyCode(input: Input) returns (err: Error, how: Method)
      requires Valid()
      modifies this`last, this`accepted, this`codes, this`spent
      ensures Valid() && old(spent) <= spent && err != Required
      ensures err == Nil ==> enabled
      ensures err == Nil && how == Otp ==> seed.Some? && last > old(last) && accepted == old(accepted) + [Accept(enrolment, seed.value, last)] && spent == old(spent)
      ensures err == Nil && how == ByRecovery ==> input.Recovery? && input.code !in old(spent) && input.code in spent && accepted == old(accepted)
      ensures err != Nil ==> accepted == old(accepted) && spent == old(spent)
    {
      how := Otp;
      if !enabled { return NotEnrolled, how; }
      match input
      case Digits(text) =>
        var up := Reach();
        err := VerifyStep(text, up);
      case Malformed => err := InvalidCode;
      case Recovery(c) =>
        how := ByRecovery;
        err := VerifyRecovery(c);
    }

    method Regenerate(input: Input) returns (err: Error)
      requires Valid()
      modifies this`last, this`accepted, this`codes, this`spent, this`nextCode
      ensures Valid() && old(spent) <= spent
      ensures err == Nil ==> |codes| == RECOVERY_COUNT && forall i :: 0 <= i < |codes| ==> !codes[i].used && codes[i].code >= old(nextCode)
    {
      var how;
      err, how := VerifyCode(input);
      if err != Nil { return; }
      var up := Reach();
      err := Regenerated(up);
    }

    // ----- the last factor --------------------------------------------------------------------

    /** SetMFA without a seed: the running enrolment is over. */
    method Unseed(on: bool)
      requires Valid()
      modifies this`enabled, this`seed, this`last, this`enrolment
      ensures Valid() && enabled == on && seed.None?
    {
      enabled, seed, last := on, None, 0;
      enrolment := enrolment + 1;
    }

    /** Turns the second step off; the codes go after it. */
    method Clear() returns (err: Error)
      requires Valid()
      modifies this`enabled, this`seed, this`last, this`enrolment, this`codes
      ensures Valid() && (err == Nil || err == Unavailable)
      ensures err == Nil ==> !enabled && seed.None? && codes == []
      ensures err != Nil ==> seed == old(seed) || seed.None?
    {
      var up := Reach();
      if !up { return Unavailable; }
      Unseed(false);
      up := Reach();
      if !up { return Unavailable; }
      codes := [];
      err := Nil;
    }

    /** Disable: while the tenant requires a second factor, the app goes only if
        a usable key remains. */
    method Disable(input: Input) returns (err: Error)
      requires Valid()
      modifies this`last, this`accepted, this`codes, this`spent, this`enabled, this`seed, this`enrolment
      ensures Valid() && keys == old(keys) && old(spent) <= spent
      ensures old(required) && old(Usable()) >= 1 ==> Usable() >= 1
      ensures err == Required ==> old(required) && UsableKeys() == 0 && seed == old(seed) && enabled == old(enabled)
      ensures err == Nil ==> old(enabled) && seed.None? && (enabled <==> keys != map[])
    {
      if required && UsableKeys() == 0 { return Required; }
      var how;
      err, how := VerifyCode(input);
      if err != Nil { return; }
      if keys != map[] {
        var up := Reach();
        if !up { return Unavailable; }
        Unseed(true);
      } else {
        err := Clear();
      }
    }

    /** KeyAdded, after a security key was stored: the first factor of any kind
        comes with recovery codes. */
    method KeyAdded(id: string) returns (err: Error)
      requires Valid() && id in keys
      modifies this`enabled, this`seed, this`last, this`enrolment, this`codes, this`nextCode
      ensures Valid() && seed == old(seed) && (err == Nil ==> enabled)
      ensures err == Nil && seed.None? && (forall k | k in keys :: k == id) ==> |codes| == RECOVERY_COUNT
      ensures err == Nil && !(seed.None? && (forall k | k in keys :: k == id)) ==> codes == old(codes)
    {
      if !enabled {
        var up := Reach();
        if !up { return Unavailable; }
        Unseed(true);
      }
      err := Nil;
      if seed.Some? || exists k | k in keys :: k != id { return; }
      var up := Reach();
      err := Regenerated(up);
    }

    /** Registering a security key under a new id: it is stored, then KeyAdded. */
    method AddKey(id: string) returns (err: Error)
      requires Valid() && id !in keys
      modifies this`keys, this`enabled, this`seed, this`last, this`enrolment, this`codes, this`nextCode
      ensures Valid() && seed == old(seed) && (keys == old(keys)[id := false] || (err != Nil && keys == old(keys) && enabled == old(enabled) && codes == old(codes)))
      ensures err == Nil ==> enabled && keys == old(keys)[id := false]
      ensures err == Nil && seed.None? && old(keys) == map[] ==> |codes| == RECOVERY_COUNT
      ensures err == Nil && (seed.Some? || old(keys) != map[]) ==> codes == old(codes)
    {
      var up := Reach();
      if !up { return Unavailable; }
      ghost var keys0 := keys;
      keys := keys[id := false];
      assert keys0 != map[] ==> exists k | k in keys :: k != id by {
        if keys0 != map[] {
          var k :| k in keys0;
          assert k in keys;
        }
      }
      err := KeyAdded(id);
    }

    /** GuardRemoval: the last usable factor stays while one is required. */
    method GuardRemoval(id: string) returns (err: Error)
      ensures err == NotFound <==> id !in keys
      ensures err == Required <==> id in keys && !keys[id] && required && Usable() <= 1
      ensures err == Nil || err == NotFound || err == Required
    {
      if id !in keys { return NotFound; }
      if !keys[id] && required && Usable() <= 1 { return Required; }
      err := Nil;
    }

    /** KeyRemoved: without any factor the second step is turned off. */
    method KeyRemoved() returns (err: Error)
      requires Valid()
      modifies this`enabled, this`seed, this`last, this`enrolment, this`codes
      ensures Valid() && seed == old(seed) && (err == Nil || err == Unavailable)
      ensures err == Nil && seed.None? && keys == map[] ==> !enabled && codes == []
      ensures seed.Some? || keys != map[] ==> err == Nil && enabled == old(enabled) && codes == old(codes)
    {
      if seed.Some? || keys != map[] { return Nil; }
      err := Clear();
    }

    /** The guard, the deletion, and KeyRemoved: while a second factor is
        required, a usable one remains. */
    method RemoveKey(id: string) returns (err: Error)
      requires Valid()
      modifies this`keys, this`enabled, this`seed, this`last, this`enrolment, this`codes
      ensures Valid() && seed == old(seed)
      ensures old(required) && old(Usable()) >= 1 ==> Usable() >= 1
      ensures err == Nil ==> id in old(keys) && keys == old(keys) - {id}
      ensures err == Nil && seed.None? && keys == map[] ==> !enabled && codes == []
      ensures err == NotFound || err == Required ==> keys == old(keys)
    {
      err := GuardRemoval(id);
      if err != Nil { return; }
      var up := Reach();
      if !up { return Unavailable; }
      OneLess(keys, id);
      keys := keys - {id};
      err := KeyRemoved();
    }
  }

  lemma NoKeys(keys: map<string, bool>)
    requires keys.Keys == {}
    ensures (set k | k in keys && !keys[k]) == {}
  {
  }

  lemma OneLess(keys: map<string, bool>, id: string)
    requires id in keys
    ensures |set k | k in keys - {id} && !(keys - {id})[k]| == |set k | k in keys && !keys[k]| - (if keys[id] then 0 else 1)
  {
    var all := set k | k in keys && !keys[k];
    assert (set k | k in keys - {id} && !(keys - {id})[k]) == all - {id};
  }

  /** The step Match finds for a text. */
  ghost predicate First(now: nat, totp: (Seed, int) -> string, s: Seed, text: string, x: int) {
    Near(now, x) && totp(s, x) == text && forall y | Near(now, y) && totp(s, y) == text :: x <= y
  }

  predicate Near(now: nat, step: int) { now / PERIOD - SKEW <= step <= now / PERIOD + SKEW }

  /** Six digits that some step within the skew shows. */
  ghost predicate Shows(now: nat, totp: (Seed, int) -> string, s: Seed, text: string) {
    |text| == 6 && exists x :: First(now, totp, s, text, x)
  }

  lemma OnlyFirst(now: nat, totp: (Seed, int) -> string, s: Seed, text: string, x: int)
    requires First(now, totp, s, text, x)
    ensures forall y | First(now, totp, s, text, y) :: y == x
  {
  }

  /** While no Confirm adopted a seed confirmed before, the accepted steps of
      every seed strictly increase, whatever happened in between. */
  lemma StepsOfSeedIncrease(acc: seq<Accept>, confirmed: map<Seed, nat>)
    requires Increasing(acc) && OncePerSeed(acc, confirmed)
    ensures PerSeed(acc)
  {
    forall i, j | 0 <= i < j < |acc| && acc[i].seed == acc[j].seed ensures acc[i].step < acc[j].step {
      assert acc[i].enrolment == confirmed[acc[i].seed] == acc[j].enrolment;
    }
  }

  /** Exactly when a Confirm that accepts a step keeps that, also one that fails
      afterwards: every step already accepted for the pending seed lies before
      it. For a seed never confirmed there is none. */
  method ConfirmKeepsOrder(f: Factors, text: string, up: Calls) returns (err: Error)
    requires f.Valid()
    modifies f
    ensures f.Valid() && (err == Nil ==> f.accepted != old(f.accepted))
    ensures f.accepted != old(f.accepted) ==>
              f.seed.Some? && (PerSeed(f.accepted) <==> PerSeed(old(f.accepted)) && AllBefore(old(f.accepted), f.seed.value, f.last))
    ensures !old(f.reused) && (old(f.Live()) ==> old(f.pending).value.seed !in old(f.confirmed)) ==> PerSeed(f.accepted)
  {
    ghost var step;
    ghost var acc := f.accepted;
    err, step := f.Confirm(text, up);
    if f.accepted != acc { PerSeedPush(acc, Accept(f.enrolment, f.seed.value, step)); }
    if !f.reused { StepsOfSeedIncrease(f.accepted, f.confirmed); }
  }

  /** The same of a sign-in. It can only fail after a confirmed seed was adopted
      again. */
  method VerifyKeepsOrder(f: Factors, text: string, up: bool) returns (err: Error)
    requires f.Valid()
    modifies f
    ensures f.Valid()
    ensures err == Nil ==> f.seed.Some? && (PerSeed(f.accepted) <==> PerSeed(old(f.accepted)) && AllBefore(old(f.accepted), f.seed.value, f.last))
    ensures err != Nil ==> f.accepted == old(f.accepted)
    ensures !f.reused ==> PerSeed(f.accepted)
  {
    ghost var acc := f.accepted;
    err := f.VerifyStep(text, up);
    if err == Nil { PerSeedPush(acc, Accept(f.enrolment, f.seed.value, f.last)); }
    if !f.reused { StepsOfSeedIncrease(f.accepted, f.confirmed); }
  }

  /** The last two accepted entries name the same seed and step. */
  ghost predicate Repeats(f: Factors, i: nat, n: nat)
    reads f
  {
    i < n && |f.accepted| == n + 1 && f.accepted[n].seed == f.accepted[i].seed && f.accepted[n].step == f.accepted[i].step
  }

  /** A live pending seed that was confirmed before accepts a step again. */
  method Replay(f: Factors, text: string, ghost i: nat)
    requires f.Valid() && f.Live() && i < |f.accepted| && |text| == 6
    requires f.accepted[i].seed == f.pending.value.seed && First(f.now, f.totp, f.accepted[i].seed, text, f.accepted[i].step)
    modifies f
    ensures f.Valid() && f.reused && old(f.accepted) <= f.accepted && Repeats(f, i, |old(f.accepted)|)
  {
    ghost var step;
    var err;
    OnlyFirst(f.now, f.totp, f.accepted[i].seed, text, f.accepted[i].step);
    err, step := f.Confirm(text, ALL_UP);
  }

  /** So does a sign-in after a confirmation whose counter was not stored: the
      counter is back at zero. */
  method ReplayBySignIn(f: Factors, text: string, ghost i: nat)
    requires f.Valid() && f.Live() && i < |f.accepted| && |text| == 6 && f.accepted[i].step > 0
    requires f.accepted[i].seed == f.pending.value.seed && First(f.now, f.totp, f.accepted[i].seed, text, f.accepted[i].step)
    modifies f
    ensures f.Valid() && f.reused && old(f.accepted) <= f.accepted && Repeats(f, i, |old(f.accepted)|)
  {
    ghost var step;
    var err;
    OnlyFirst(f.now, f.totp, f.accepted[i].seed, text, f.accepted[i].step);
    ghost var a := f.accepted[i];
    err, step := f.Confirm(text, ALL_UP.(counter := false));
    assert f.seed == Some(a.seed) && f.last == 0 && First(f.now, f.totp, a.seed, text, a.step);
    err := f.VerifyStep(text, true);
    assert First(f.now, f.totp, a.seed, text, a.step) && First(f.now, f.totp, a.seed, text, f.last);
    OnlyFirst(f.now, f.totp, a.seed, text, a.step);
  }

  lemma ShownFirst(now: nat, totp: (Seed, int) -> string, s: Seed)
    requires |totp(s, now / PERIOD)| == 6
    ensures Shows(now, totp, s, totp(s, now / PERIOD))
  {
    var n, text := now / PERIOD, totp(s, now / PERIOD);
    if totp(s, n - 1) == text { assert First(now, totp, s, text, n - 1); } else { assert First(now, totp, s, text, n); }
  }

  /** Such states are reached with every code function and clock: the cache does
      not drop the pending seed of a first confirmation, and the same code
      confirms once more, or signs in after a confirmation whose counter was
      not stored. */
  method ReplayReached(totp: (Seed, int) -> string, at: nat, signIn: bool) returns (f: Factors)
    requires (forall x :: |totp(0, x)| == 6) && at >= 2 * PERIOD
    ensures fresh(f) && f.Valid() && f.totp == totp && Repeats(f, 0, 1) && f.reused && !PerSeed(f.accepted)
  {
    f := new Factors(totp, at, false);
    var err := f.Enrol(true);
    ghost var step;
    var text := totp(0, at / PERIOD);
    ShownFirst(at, totp, 0);
    err, step := f.Confirm(text, ALL_UP.(drop := false));
    if signIn { ReplayBySignIn(f, text, 0); } else { Replay(f, text, 0); }
  }
}
