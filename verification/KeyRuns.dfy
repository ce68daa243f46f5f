/** The ring, its store and its issuers as a state machine whose steps are the
    single store and memory changes of internal/token/ring.go and the picking
    and signing of internal/token/jwt.go and internal/token/enroll.go, in any
    interleaving. Rotate and Sweep date what they change with a clock reading
    `at` from before they got the lock and the store's answer. A store call
    that fails is a step that does not happen. */
module KeyRuns {
  import opened Basics
  import opened KeyLife

  datatype Step =
    | Retire(kid: Kid, at: int)
    | PutBack(kid: Kid)
    | Insert(at: int)
    | Drop(kid: Kid, at: int)
    | Remove(kid: Kid)
    | Forget(kid: Kid)
    | Reload
    | Wait(d: nat)
    | PickKey(kid: Kid)
    | Sign(p: Pick, stamp: int, life: int)

  ghost predicate NoActive(s: State) { forall x | x in s.keys :: s.keys[x].life != Active }

  ghost predicate Enabled(c: Config, s: State, step: Step) {
    match step
    case Retire(kid, at) => kid in s.keys && kid in s.stored && s.keys[kid].life == Active && at <= s.now
    case PutBack(kid) => kid in s.keys && kid in s.stored && s.keys[kid].life == Retiring && NoActive(s)
    case Insert(_) => NoActive(s)
    case Drop(kid, at) =>
      && kid in s.keys && kid in s.stored && s.keys[kid].life == Retiring && s.keys[kid].retiringAt.Some?
      && s.keys[kid].retiringAt.value + c.retiring <= at <= s.now
    case Remove(kid) => kid in s.keys && Past(c, s.now, s.keys[kid])
    case Forget(kid) => kid in s.keys && Past(c, s.now, s.keys[kid]) && kid !in s.stored
    case Reload => true
    case Wait(_) => true
    case PickKey(kid) => kid in s.keys && s.keys[kid].life == Active
    case Sign(p, stamp, life) => Signs(s, p, stamp) && 0 < life <= DAY
  }

  /** The issuer gets a signature: the object it picked still has its private
      half. The clock was read at `stamp`. */
  predicate Signs(s: State, p: Pick, stamp: int) { p in s.picks && p.at <= stamp <= s.now && (p.gen, p.kid) !in s.spent }

  /** No reload since the pick, or the token expires soon enough after it. */
  predicate Covered(c: Config, s: State, p: Pick, exp: int) { p.gen == s.gen || exp <= p.at + c.retiring + DAY }

  ghost function Next(c: Config, s: State, step: Step): State
    requires Enabled(c, s, step)
  {
    match step
    case Retire(kid, at) => RetiredIn(s, kid, at)
    case PutBack(kid) => Set(s, kid, s.keys[kid].(life := Active, retiringAt := None), s.stored[kid].(life := Active))
    case Insert(at) => Inserted(s, at)
    case Drop(kid, at) => DroppedIn(s, kid, at)
    case Remove(kid) => s.(stored := s.stored - {kid})
    case Forget(kid) => s.(keys := s.keys - {kid})
    case Reload => s.(keys := s.stored, gen := s.gen + 1)
    case Wait(d) => s.(now := s.now + d)
    case PickKey(kid) => s.(picks := s.picks + {Pick(kid, s.now, s.gen)})
    case Sign(p, stamp, life) => if Covered(c, s, p, Floor(stamp + life)) then WithToken(s, Token(p.kid, Floor(stamp + life))) else s
  }

  lemma StepKeeps(c: Config, s: State, step: Step)
    requires Inv(c, s) && Enabled(c, s, step)
    ensures Inv(c, Next(c, s, step)) && s.tokens <= Next(c, s, step).tokens && s.picks <= Next(c, s, step).picks
  {
    match step
    case Retire(kid, at) => RetireKeeps(c, s, kid, at);
    case PutBack(kid) => RestoreKeeps(c, s, kid);
    case Insert(at) => InsertKeeps(c, s, at);
    case Drop(kid, at) => DropKeeps(c, s, kid, at);
    case Remove(kid) => RemoveKeeps(c, s, kid);
    case Forget(kid) => ForgetKeeps(c, s, {kid});
    case Reload => ReloadKeeps(c, s);
    case Wait(d) => WaitKeeps(c, s, d);
    case PickKey(kid) => PickKeeps(c, s, kid);
    case Sign(p, stamp, life) => SignStep(c, s, p, stamp, life);
  }

  lemma SignStep(c: Config, s: State, p: Pick, stamp: int, life: int)
    requires Inv(c, s) && Enabled(c, s, Sign(p, stamp, life))
    ensures Inv(c, Next(c, s, Sign(p, stamp, life)))
  {
    var exp := Floor(stamp + life);
    if p.gen == s.gen {
      SignKeeps(c, s, p, exp);
    } else if exp <= p.at + c.retiring + DAY {
      StampKeeps(c, s, p, exp);
    }
  }

  // ----- runs ------------------------------------------------------------------------------

  /** A run, as its steps from the empty ring. */
  datatype Trace = Start(at: int) | Then(before: Trace, step: Step) {
    ghost predicate Ok(c: Config)
      decreases this, 0
    {
      match this
      case Start(_) => c.Valid()
      case Then(before, step) => before.Ok(c) && Enabled(c, before.End(c), step)
    }

    ghost function End(c: Config): State
      requires Ok(c)
      decreases this, 1
    {
      match this
      case Start(at) => State(at, map[], map[], 0, 0, {}, {}, {}, 0)
      case Then(before, step) => Next(c, before.End(c), step)
    }

    /** The run goes on from the other one. */
    ghost predicate Extends(t: Trace) { this == t || (Then? && before.Extends(t)) }
  }

  lemma {:induction false} RunKeeps(c: Config, t: Trace)
    requires t.Ok(c)
    ensures Inv(c, t.End(c))
  {
    match t
    case Start(_) =>
    case Then(before, step) =>
      RunKeeps(c, before);
      StepKeeps(c, before.End(c), step);
  }

  lemma {:induction false} TokensStay(c: Config, t: Trace, u: Trace)
    requires u.Ok(c) && u.Extends(t)
    ensures t.Ok(c) && t.End(c).tokens <= u.End(c).tokens && t.End(c).picks <= u.End(c).picks
  {
    if u != t {
      TokensStay(c, t, u.before);
      RunKeeps(c, u.before);
      StepKeeps(c, u.before.End(c), u.step);
    }
  }

  /** Never two active keys, in memory or in the store, in any run of these
      steps. */
  lemma OneActiveInRuns(c: Config, t: Trace)
    requires t.Ok(c)
    ensures OneActive(t.End(c).keys) && OneActive(t.End(c).stored)
  {
    RunKeeps(c, t);
    StoreOneActive(c, t.End(c));
  }

  /** Every access or enrollment token an issuer gets has its key in the ring
      at every later instant before its expiry plus skew less the lag, however
      long the issuer took, unless a reload came between picking the key and
      signing; then, if it expires within the retiring period and a day of the
      pick. Without a lag that is the whole life of the token. */
  lemma TokensVerifiable(c: Config, t: Trace, p: Pick, stamp: int, life: int, u: Trace)
    requires t.Ok(c) && Enabled(c, t.End(c), Sign(p, stamp, life)) && (p.gen == t.End(c).gen || Floor(stamp + life) <= p.at + c.retiring + DAY)
    requires u.Ok(c) && u.Extends(Then(t, Sign(p, stamp, life))) && u.End(c).now < Floor(stamp + life) + c.skew - u.End(c).lag
    ensures p.kid in u.End(c).keys
  {
    TokensStay(c, Then(t, Sign(p, stamp, life)), u);
    RunKeeps(c, u);
    Verifiable(c, u.End(c), Token(p.kid, Floor(stamp + life)));
  }

  /** With any lag and any reloads, the whole life of a token that expires within
      the retiring period and a day of the pick, less the lag. */
  lemma PromptTokensVerifiable(c: Config, t: Trace, p: Pick, stamp: int, life: int, u: Trace)
    requires t.Ok(c) && Enabled(c, t.End(c), Sign(p, stamp, life)) && u.Ok(c) && u.Extends(Then(t, Sign(p, stamp, life)))
    requires Floor(stamp + life) <= p.at + c.retiring + DAY - u.End(c).lag && u.End(c).now < Floor(stamp + life) + c.skew
    ensures p.kid in u.End(c).keys
  {
    TokensStay(c, Then(t, Sign(p, stamp, life)), u);
    RunKeeps(c, u);
    PromptVerifiable(c, u.End(c), p, Floor(stamp + life));
  }

  // ----- the bounds are exact -------------------------------------------------------------------

  const K := Key(0, Active, None, None)
  const W := Key(0, Retiring, Some(0), None)
  const P := Pick(0, 0, 0)

  /** A key made at 0, picked when the lag is over, perhaps reloaded, and rotated
      at once with the reading from 0. */
  lemma Picked(c: Config, reload: bool, lag: nat) returns (t: Trace)
    requires c.Valid()
    ensures t.Ok(c)
    ensures t.End(c) == State(lag, map[0 := W, 1 := K], map[0 := W, 1 := K], if reload then 1 else 0, 2, {}, {Pick(0, lag, 0)}, {}, lag)
  {
    var p := Pick(0, lag, 0);
    var t0 := Start(0);
    var t1 := Go(c, t0, State(0, map[], map[], 0, 0, {}, {}, {}, 0), Insert(0), State(0, map[0 := K], map[0 := K], 0, 1, {}, {}, {}, 0));
    var t2 := Go(c, t1, t1.End(c), Wait(lag), State(lag, map[0 := K], map[0 := K], 0, 1, {}, {}, {}, 0));
    var t3 := Go(c, t2, t2.End(c), PickKey(0), State(lag, map[0 := K], map[0 := K], 0, 1, {}, {p}, {}, 0));
    if reload { t3 := Go(c, t3, t3.End(c), Reload, State(lag, map[0 := K], map[0 := K], 1, 1, {}, {p}, {}, 0)); }
    var g := t3.End(c).gen;
    var t4 := Go(c, t3, t3.End(c), Retire(0, 0), State(lag, map[0 := W], map[0 := W], g, 1, {}, {p}, {}, lag));
    t := Go(c, t4, t4.End(c), Insert(0), State(lag, map[0 := W, 1 := K], map[0 := W, 1 := K], g, 2, {}, {p}, {}, lag));
  }

  /** The ring retires it as soon as a reading allows. */
  lemma DroppedReloaded(c: Config, lag: nat) returns (t: Trace)
    requires c.Valid()
    ensures t.Ok(c) && Withering(c, t.End(c)) && t.End(c).picks == {Pick(0, lag, 0)} && t.End(c).gen == 1 && t.End(c).lag == lag
    ensures t.End(c).spent == {(1, 0)} && t.End(c).now == if lag <= c.retiring then c.retiring else lag
  {
    var t0 := Picked(c, true, lag);
    var d := if lag <= c.retiring then c.retiring - lag else 0;
    var t1 := Go(c, t0, t0.End(c), Wait(d), t0.End(c).(now := lag + d));
    var s := t1.End(c);
    assert Enabled(c, s, Drop(0, c.retiring));
    t := Go(c, t1, s, Drop(0, c.retiring), DroppedIn(s, 0, c.retiring));
  }

  /** Key 0 is retired, dated the retiring period. */
  ghost predicate Withering(c: Config, s: State) { 0 in s.keys && 0 in s.stored && s.keys[0] == Dropped(W, c.retiring) && 0 <= s.now }

  /** Once its time is past, it goes from the store and the memory. */
  lemma Vanishes(c: Config, t: Trace, end: int) returns (u: Trace)
    requires t.Ok(c) && Withering(c, t.End(c)) && end >= t.End(c).now && end >= c.retiring + c.Keep()
    ensures u.Ok(c) && u.Extends(t) && u.End(c).now == end && 0 !in u.End(c).keys
    ensures u.End(c).picks == t.End(c).picks && u.End(c).spent == t.End(c).spent && u.End(c).gen == t.End(c).gen && u.End(c).lag == t.End(c).lag
  {
    var t1 := Then(t, Wait(end - t.End(c).now));
    assert t1.Ok(c);
    var t2 := Then(t1, Remove(0));
    assert Enabled(c, t1.End(c), Remove(0));
    u := Then(t2, Forget(0));
    assert t2.Ok(c) && Enabled(c, t2.End(c), Forget(0));
    assert t1.Extends(t) && t2.Extends(t);
  }

  lemma Go(c: Config, t: Trace, s: State, step: Step, s': State) returns (u: Trace)
    requires t.Ok(c) && t.End(c) == s && Enabled(c, s, step) && Next(c, s, step) == s'
    ensures u == Then(t, step) && u.Ok(c) && u.End(c) == s'
  {
    u := Then(t, step);
  }

  /** Whenever a reload came in between and the token expires later than the
      retiring period and a day after the pick, less the lag, there is a run in
      which the issuer gets it although its key is gone. */
  lemma LateTokens(c: Config, lag: nat, stamp: int, life: int)
    requires c.Valid() && 0 < life <= DAY && lag <= stamp <= Floor(stamp + life) && Floor(stamp + life) > c.retiring + DAY
    ensures exists t: Trace, p: Pick :: t.Ok(c) && Signs(t.End(c), p, stamp) && p.gen != t.End(c).gen && t.End(c).lag == p.at == lag &&
              p.kid !in t.End(c).keys && t.End(c).now < Floor(stamp + life) + c.skew
  {
    var t := DroppedReloaded(c, lag);
    var end := if stamp <= c.retiring + c.Keep() then c.retiring + c.Keep() else stamp;
    var u := Vanishes(c, t, end);
    assert Signs(u.End(c), Pick(0, lag, 0), stamp);
  }

  /** For all settings and every lag of a second or more there is a run without
      a reload in which the ring retires a key with a reading older by the lag
      than a token just signed, and forgets the key while the token lives. */
  lemma LaggingSweep(c: Config, lag: int) returns (t: Trace, u: Trace, stamp: int)
    requires c.Valid() && lag >= SECOND
    ensures t.Ok(c) && Enabled(c, t.End(c), Sign(P, stamp, DAY)) && P.gen == t.End(c).gen
    ensures u.Ok(c) && u.Extends(Then(t, Sign(P, stamp, DAY))) && u.End(c).gen == P.gen && u.End(c).lag == lag
    ensures P.kid !in u.End(c).keys && u.End(c).now < Floor(stamp + DAY) + c.skew
    ensures lag <= c.Keep() ==> u.End(c).now == stamp + DAY + c.skew - lag
  {
    stamp := c.retiring + lag;
    t := SignedLate(c, stamp);
    var t2 := Then(t, Sign(P, stamp, DAY));
    var t3 := DroppedEarlier(c, t2, stamp);
    u := Vanishes(c, t3, if lag <= c.Keep() then c.retiring + c.Keep() else stamp);
    ExtendsOn(u, t3, t2);
  }

  lemma SignedLate(c: Config, stamp: int) returns (t: Trace)
    requires c.Valid() && 0 <= stamp
    ensures t.Ok(c) && t.End(c) == State(stamp, map[0 := W, 1 := K], map[0 := W, 1 := K], 0, 2, {}, {P}, {}, 0)
    ensures Enabled(c, t.End(c), Sign(P, stamp, DAY)) && Then(t, Sign(P, stamp, DAY)).Ok(c)
    ensures Then(t, Sign(P, stamp, DAY)).End(c) ==
              State(stamp, map[0 := W, 1 := K], map[0 := W, 1 := K], 0, 2, {}, {P}, {Token(0, Floor(stamp + DAY))}, 0)
  {
    var t0 := Picked(c, false, 0);
    t := Go(c, t0, t0.End(c), Wait(stamp), t0.End(c).(now := stamp));
    var u := Go(c, t, t.End(c), Sign(P, stamp, DAY), t.End(c).(tokens := {Token(0, Floor(stamp + DAY))}));
  }

  lemma DroppedEarlier(c: Config, t: Trace, stamp: int) returns (u: Trace)
    requires t.Ok(c) && c.Valid() && c.retiring <= stamp
    requires t.End(c) == State(stamp, map[0 := W, 1 := K], map[0 := W, 1 := K], 0, 2, {}, {P}, {Token(0, Floor(stamp + DAY))}, 0)
    ensures u == Then(t, Drop(0, c.retiring)) && u.Ok(c) && Withering(c, u.End(c))
    ensures u.End(c).now == stamp && u.End(c).gen == 0 && u.End(c).lag == stamp - c.retiring
  {
    var s := t.End(c);
    assert Enabled(c, s, Drop(0, c.retiring));
    u := Go(c, t, s, Drop(0, c.retiring), DroppedIn(s, 0, c.retiring));
  }

  lemma {:induction false} ExtendsOn(u: Trace, t: Trace, t0: Trace)
    requires u.Extends(t) && t.Then? && t.before == t0
    ensures u.Extends(t0)
  {
    if u != t { ExtendsOn(u.before, t, t0); }
  }

  // ----- a reload whose listing is old ----------------------------------------------------------

  lemma StoredOld(c: Config, s: State, step: Step, kid: Kid)
    requires Inv(c, s) && Enabled(c, s, step) && kid in Next(c, s, step).stored && kid < s.next
    ensures kid in s.stored && s.next <= Next(c, s, step).next
  {
  }

  /** A stored key is in every listing taken since it was made. */
  lemma {:induction false} StoredSince(c: Config, t: Trace, u: Trace, kid: Kid)
    requires u.Ok(c) && u.Extends(t)
    ensures t.Ok(c) && t.End(c).next <= u.End(c).next
    ensures kid in u.End(c).stored && kid < t.End(c).next ==> kid in t.End(c).stored
  {
    if u != t {
      StoredSince(c, t, u.before, kid);
      RunKeeps(c, u.before);
      if kid in u.End(c).stored && kid < u.before.End(c).next { StoredOld(c, u.before.End(c), u.step, kid); }
    }
  }

  /** Load lists the keys and replaces the memory in two steps. If other steps
      come between them, a token the ring answers for loses its key to the
      replacement if and only if the key is newer than the listing. */
  lemma StaleListing(c: Config, t: Trace, u: Trace, tok: Token)
    requires u.Ok(c) && u.Extends(t) && tok in u.End(c).tokens && u.End(c).now < tok.exp + c.skew - u.End(c).lag
    ensures t.Ok(c) && (tok.kid !in t.End(c).stored <==> tok.kid >= t.End(c).next)
  {
    var s := u.End(c);
    StoredSince(c, t, u, tok.kid);
    RunKeeps(c, t);
    RunKeeps(c, u);
    Verifiable(c, s, tok);
    assert TokenOk(c, s, tok);
    assert tok.kid in s.stored;
  }

  /** Such a token: its key was rotated in after the listing. */
  lemma StaleListingLoses(c: Config)
    requires c.Valid()
    ensures exists t: Trace, u: Trace, tok: Token :: u.Ok(c) && u.Extends(t) && t.Ok(c) && tok in u.End(c).tokens && u.End(c).lag == 0 &&
              u.End(c).now < tok.exp + c.skew && tok.kid !in t.End(c).stored
  {
    var t := Start(0);
    var t1 := Go(c, t, State(0, map[], map[], 0, 0, {}, {}, {}, 0), Insert(0), State(0, map[0 := K], map[0 := K], 0, 1, {}, {}, {}, 0));
    var t2 := Go(c, t1, t1.End(c), PickKey(0), State(0, map[0 := K], map[0 := K], 0, 1, {}, {P}, {}, 0));
    var tok := Token(0, Floor(DAY));
    var t3 := Go(c, t2, t2.End(c), Sign(P, 0, DAY), State(0, map[0 := K], map[0 := K], 0, 1, {}, {P}, {tok}, 0));
    assert t1.Extends(t) && t2.Extends(t) && t3.Extends(t);
  }

  /** What Rotate makes of the in-memory store when the memory is `keys`. */
  function RotatedStore(keys: map<Kid, Key>, stored: map<Kid, Key>, next: Kid, at: int): map<Kid, Key> {
    (map kid | kid in stored :: if kid in keys && keys[kid].life == Active then Withdrawn(stored[kid], at) else stored[kid])[next := Key(at, Active, None, None)]
  }

  /** The rotation after a replacement by the listing taken at t leaves the store
      with one active key if and only if every key active in the store is
      active in the listing. */
  lemma StaleRotation(c: Config, t: Trace, u: Trace, at: int)
    requires u.Ok(c) && u.Extends(t) && t.Ok(c)
    ensures OneActive(RotatedStore(t.End(c).stored, u.End(c).stored, u.End(c).next, at)) <==>
              forall kid | kid in u.End(c).stored && u.End(c).stored[kid].life == Active :: kid in t.End(c).stored && t.End(c).stored[kid].life == Active
  {
    var m, st, n := t.End(c).stored, u.End(c).stored, u.End(c).next;
    var st' := RotatedStore(m, st, n, at);
    RunKeeps(c, u);
    assert n !in st;
    assert forall kid | kid in st :: st'[kid].life == Active <==> st[kid].life == Active && !(kid in m && m[kid].life == Active);
    assert st'[n].life == Active;
    if OneActive(st') {
      forall kid | kid in st && st[kid].life == Active ensures kid in m && m[kid].life == Active { assert kid != n; }
    }
  }

  /** A rotation between listing and replacing breaks it. */
  lemma StaleRotationTwo(c: Config)
    requires c.Valid()
    ensures exists t: Trace, u: Trace :: u.Ok(c) && u.Extends(t) && t.Ok(c) && !OneActive(RotatedStore(t.End(c).stored, u.End(c).stored, u.End(c).next, 0))
  {
    var t := Start(0);
    var u := Go(c, t, State(0, map[], map[], 0, 0, {}, {}, {}, 0), Insert(0), State(0, map[0 := K], map[0 := K], 0, 1, {}, {}, {}, 0));
    StaleRotation(c, t, u, 0);
    assert u.End(c).stored[0].life == Active;
  }
}
