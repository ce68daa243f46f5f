/** The key ring as an object (internal/token/ring.go): Rotate with its
    roll-back, Sweep, Load and the issuing of tokens. Any store call may fail
    without effect; every state between calls, and every state a failed call
    leaves, satisfies the invariant of KeyLife. */
module KeyRing {
  import opened Basics
  import opened KeyLife

  class Ring {
    const cfg: Config
    var now: int
    var keys: map<Kid, Key>
    var stored: map<Kid, Key>
    var gen: nat
    var next: Kid
    var spent: set<(nat, Kid)>
    ghost var picks: set<Pick>
    ghost var tokens: set<Token>
    ghost var lag: nat

    ghost function St(): State
      reads this
    {
      State(now, keys, stored, gen, next, spent, picks, tokens, lag)
    }

    ghost predicate Valid()
      reads this
    {
      Inv(cfg, St())
    }

    static method Reach() returns (up: bool) { up := *; }

    method SetLife(kid: Kid, k: Key, st: Key)
      modifies this`keys, this`stored
      ensures keys == old(keys)[kid := k] && stored == old(stored)[kid := st]
    {
      keys, stored := keys[kid := k], stored[kid := st];
    }

    /** Moves the active key to retiring, in the store first, dated `at`. */
    method Withdraw(at: int) returns (ok: bool, was: Option<Kid>)
      requires Valid() && at <= now
      modifies this`keys, this`stored, this`lag
      ensures Valid()
      ensures ok ==> forall x | x in keys :: keys[x].life != Active
      ensures stored.Keys == old(stored).Keys
      ensures lag == Longer(old(lag), now - at) || (was.None? && lag == old(lag))
      ensures was.None? ==> keys == old(keys) && stored == old(stored)
      ensures was.Some? ==> ok && was.value in old(keys) && old(keys)[was.value].life == Active && was.value in stored
      ensures was.Some? ==> keys == old(keys)[was.value := Withdrawn(old(keys)[was.value], at)]
    {
      was := None;
      var kids := SeqOf(keys.Keys);
      for i := 0 to |kids|
        invariant was.None? && keys == old(keys) && stored == old(stored) && lag == old(lag)
        invariant forall j :: 0 <= j < i ==> keys[kids[j]].life != Active
      {
        var kid := kids[i];
        if keys[kid].life == Active {
          var up := Reach();
          if !up { return false, None; }
          RetireKeeps(cfg, St(), kid, at);
          SetLife(kid, Withdrawn(keys[kid], at), Withdrawn(stored[kid], at));
          lag := Longer(lag, now - at);
          return true, Some(kid);
        }
      }
      ok := true;
      forall x | x in keys ensures keys[x].life != Active { var j :| 0 <= j < |kids| && kids[j] == x; }
    }

    /** The roll-back. */
    method PutBack(kid: Kid)
      requires Valid() && kid in keys && kid in stored && keys[kid].life == Retiring && forall x | x in keys :: keys[x].life != Active
      modifies this`keys, this`stored
      ensures Valid()
      ensures keys == old(keys) || keys == old(keys)[kid := old(keys)[kid].(life := Active, retiringAt := None)]
      ensures stored.Keys == old(stored).Keys
    {
      var up := Reach();
      if up {
        RestoreKeeps(cfg, St(), kid);
        SetLife(kid, keys[kid].(life := Active, retiringAt := None), stored[kid].(life := Active));
      }
    }

    /** Rotate: the active key retires, a new one takes over. If the new one
        cannot be stored, the old one is put back; if that fails too, the ring
        has no active key until the next rotation. The clock was read at `at`,
        before the lock was taken. */
    method Rotate(at: int) returns (ok: bool)
      requires Valid() && at <= now
      modifies this`keys, this`stored, this`next, this`lag
      ensures Valid()
      ensures lag == old(lag) || lag == Longer(old(lag), now - at)
      ensures ok ==> Rotated(old(keys), keys, at, old(next)) && stored.Keys == old(stored).Keys + {old(next)}
      ensures ok ==> RotateIs(old(keys), keys, at, old(next))
      ensures !ok ==> stored.Keys == old(stored).Keys
      ensures !ok ==> keys.Keys == old(keys).Keys && forall x | x in keys ::
                        keys[x].life == old(keys)[x].life || (old(keys)[x].life == Active && keys[x] == Withdrawn(old(keys)[x], at))
    {
      var ok1, was := Withdraw(at);
      if !ok1 { return false; }
      var up := Reach();
      if !up {
        if was.Some? { PutBack(was.value); }
        return false;
      }
      Install(at);
      ok := true;
    }

    /** The new key, in the store and in memory. */
    method Install(at: int)
      requires Valid() && forall x | x in keys :: keys[x].life != Active
      modifies this`keys, this`stored, this`next
      ensures Valid() && keys == old(keys)[old(next) := Key(at, Active, None, None)] && old(next) !in old(keys)
      ensures stored.Keys == old(stored).Keys + {old(next)}
    {
      InsertKeeps(cfg, St(), at);
      var k := Key(at, Active, None, None);
      SetLife(next, k, k);
      next := next + 1;
    }

    /** One key's turn in the sweep. */
    method Advance(kid: Kid, at: int) returns (ok: bool, forget: bool)
      requires Valid() && kid in keys && at <= now
      modifies this`keys, this`stored, this`spent, this`lag
      ensures Valid() && keys.Keys == old(keys).Keys && (forall x | x in keys && x != kid :: keys[x] == old(keys)[x])
      ensures forall x | x in stored :: x in old(stored)
      ensures lag == old(lag) || lag == Longer(old(lag), now - at)
      ensures !ok ==> keys == old(keys) && stored == old(stored) && spent == old(spent) && lag == old(lag) && !forget
      ensures ok ==> keys[kid] == Swept(cfg, at, old(keys)[kid]) && (forget <==> Past(cfg, at, old(keys)[kid]))
      ensures forget ==> Past(cfg, at, keys[kid]) && kid !in stored
    {
      var k := keys[kid];
      ok, forget := true, false;
      match k.life
      case Active =>
      case Retiring =>
        if at - k.retiringAt.value >= cfg.retiring {
          var up := Reach();
          if !up { return false, false; }
          DropKeeps(cfg, St(), kid, at);
          SetLife(kid, Dropped(k, at), Dropped(stored[kid], at));
          lag := Longer(lag, now - at);
          spent := spent + {(gen, kid)};
        }
      case Retired =>
        if at - k.retiredAt.value >= cfg.Keep() {
          var up := Reach();
          if !up { return false, false; }
          RemoveKeeps(cfg, St(), kid);
          stored := stored - {kid};
          forget := true;
        }
    }

    /** The loop of the sweep. */
    method Turns(at: int) returns (ok: bool, gone: set<Kid>)
      requires Valid() && at <= now
      modifies this`keys, this`stored, this`spent, this`lag
      ensures Valid()
      ensures lag == old(lag) || lag == Longer(old(lag), now - at)
      ensures ok ==> Sweeping(cfg, at, old(keys), keys, stored, old(keys).Keys, gone)
      ensures !ok ==> keys.Keys == old(keys).Keys && forall x | x in keys :: keys[x] == old(keys)[x] || keys[x] == Swept(cfg, at, old(keys)[x])
    {
      var kids := SeqOf(keys.Keys);
      gone := {};
      for i := 0 to |kids|
        invariant Valid() && (lag == old(lag) || lag == Longer(old(lag), now - at)) && Sweeping(cfg, at, old(keys), keys, stored, ToSet(kids[..i]), gone)
      {
        assert kids[i] in kids;
        assert kids[i] !in kids[..i];
        ToSetPrefix(kids, i);
        ghost var before, stored0 := keys, stored;
        var done, forget := Advance(kids[i], at);
        if !done { return false, gone; }
        SweepNext(cfg, at, old(keys), before, keys, stored0, stored, ToSet(kids[..i]), gone, kids[i], forget);
        if forget { gone := gone + {kids[i]}; }
      }
      ToSetAll(kids);
      assert ToSet(kids) == old(keys).Keys;
      ok := true;
    }

    /** Sweep, without the rotation at its end: if a store call fails, the keys
        handled so far stay handled, but none leaves the memory. */
    method SweepKeys(at: int) returns (ok: bool)
      requires Valid() && at <= now
      modifies this`keys, this`stored, this`spent, this`lag
      ensures Valid()
      ensures lag == old(lag) || lag == Longer(old(lag), now - at)
      ensures ok ==> SweptAll(cfg, at, old(keys), keys) && SweepIs(cfg, at, old(keys), keys)
      ensures !ok ==> keys.Keys == old(keys).Keys && forall x | x in keys :: keys[x] == old(keys)[x] || keys[x] == Swept(cfg, at, old(keys)[x])
    {
      ghost var s := St();
      var gone;
      ok, gone := Turns(at);
      if !ok { return; }
      ForgetKeeps(cfg, St(), gone);
      keys := keys - gone;
      SweptIs(cfg, s, at, keys);
    }

    /** Sweep: the keys move on, and an active key that is old enough is rotated,
        with a new reading of the clock. */
    method Sweep(at: int, later: int) returns (ok: bool)
      requires Valid() && at <= later <= now
      modifies this`keys, this`stored, this`spent, this`next, this`lag
      ensures Valid()
      ensures ok && (forall kid | kid in old(keys) && old(keys)[kid].life == Active :: at < old(keys)[kid].created + cfg.interval) ==> SweepIs(cfg, at, old(keys), keys)
      ensures ok && (exists kid :: kid in old(keys) && old(keys)[kid].life == Active && old(keys)[kid].created + cfg.interval <= at) ==> exists mid :: SweepIs(cfg, at, old(keys), mid) && RotateIs(mid, keys, later, old(next))
    {
      var rotate := exists kid | kid in keys :: keys[kid].life == Active && at - keys[kid].created >= cfg.interval;
      ok := SweepKeys(at);
      if !ok || !rotate { return; }
      ok := Rotate(later);
    }

    /** Load: memory is read anew; without an active key one is made. A key that
        cannot be opened leaves everything as it is. */
    method Load(at: int) returns (ok: bool)
      requires Valid() && at <= now
      modifies this`keys, this`stored, this`gen, this`next, this`lag
      ensures Valid()
      ensures ok ==> exists kid :: kid in keys && keys[kid].life == Active
      ensures gen == old(gen) ==> !ok && keys == old(keys) && stored == old(stored)
      ensures gen != old(gen) ==> gen == old(gen) + 1 && keys.Keys == stored.Keys && forall kid | kid in keys :: SameLife(keys[kid], stored[kid])
      ensures ok && (exists kid :: kid in old(stored) && old(stored)[kid].life == Active) ==> keys == old(stored) && stored == old(stored)
    {
      var up := Reach();
      var unsealed := Reach();
      if !up || !unsealed { return false; }
      ReloadKeeps(cfg, St());
      keys, gen := stored, gen + 1;
      if exists kid | kid in keys :: keys[kid].life == Active { return true; }
      ok := Rotate(at);
      if ok { assert keys[old(next)].life == Active; }
    }

    /** The active key, if there is one. */
    method PickActive() returns (p: Option<Pick>)
      requires Valid()
      modifies this`picks
      ensures Valid()
      ensures p.None? ==> picks == old(picks) && forall kid | kid in keys :: keys[kid].life != Active
      ensures p.Some? ==> p.value == Pick(p.value.kid, now, gen) && p.value.kid in keys && keys[p.value.kid].life == Active && picks == old(picks) + {p.value}
    {
      var best: Option<Kid> := None;
      var kids := SeqOf(keys.Keys);
      for i := 0 to |kids|
        invariant best.Some? ==> best.value in keys && keys[best.value].life == Active
        invariant best.None? ==> forall j :: 0 <= j < i ==> keys[kids[j]].life != Active
      {
        if keys[kids[i]].life == Active && (best.None? || keys[kids[i]].created > keys[best.value].created) { best := Some(kids[i]); }
      }
      match best
      case None =>
        p := None;
        forall kid | kid in keys ensures keys[kid].life != Active { var j :| 0 <= j < |kids| && kids[j] == kid; }
      case Some(kid) =>
        PickKeeps(cfg, St(), kid);
        p := Some(Pick(kid, now, gen));
        picks := picks + {p.value};
    }

    /** Issue, after the key was picked and the clock read at `stamp`. The token
        is one of those the ring answers for if there was no reload since the
        pick, or if it expires within the retiring period and a day of it. */
    method SignAccess(p: Pick, stamp: int, lifetime: int) returns (t: Option<Token>)
      requires Valid() && p in picks && p.at <= stamp <= now
      modifies this`tokens
      ensures Valid()
      ensures t.None? <==> (p.gen, p.kid) in spent
      ensures t.Some? ==> t.value == Token(p.kid, Floor(stamp + if lifetime <= 0 || lifetime > cfg.access then cfg.access else lifetime))
      ensures t.Some? && (p.gen == gen || t.value.exp <= p.at + cfg.retiring + DAY) ==> t.value in tokens
    {
      var life := if lifetime <= 0 || lifetime > cfg.access then cfg.access else lifetime;
      if (p.gen, p.kid) in spent { return None; }
      var exp := Floor(stamp + life);
      t := Some(Token(p.kid, exp));
      if p.gen == gen {
        SignKeeps(cfg, St(), p, exp);
        tokens := tokens + {t.value};
      } else if exp <= p.at + cfg.retiring + DAY {
        StampKeeps(cfg, St(), p, exp);
        tokens := tokens + {t.value};
      }
    }

    /** IssueEnrollment, after the key was picked and the clock read at `stamp`:
        the private half is needed when signing. Issue date and expiry are whole
        seconds. The ring answers for the token as for an access token. */
    method SignEnrollment(p: Pick, stamp: int, ttl: int) returns (t: Option<Token>, issued: int)
      requires Valid() && p in picks && p.at <= stamp <= now
      modifies this`tokens
      ensures Valid() && issued == Floor(stamp)
      ensures t.None? <==> ttl > DAY || (p.gen, p.kid) in spent
      ensures t.Some? ==> t.value == Token(p.kid, Floor(stamp + if ttl <= 0 then DEFAULT_ENROLL else ttl))
      ensures t.Some? ==> t.value.exp - issued <= DAY
      ensures t.Some? && (p.gen == gen || t.value.exp <= p.at + cfg.retiring + DAY) ==> t.value in tokens
    {
      issued := Floor(stamp);
      if ttl > DAY || (p.gen, p.kid) in spent { return None, issued; }
      var life := if ttl <= 0 then DEFAULT_ENROLL else ttl;
      var exp := Floor(stamp + life);
      LifetimeKept(stamp, life);
      t := Some(Token(p.kid, exp));
      if p.gen == gen {
        SignKeeps(cfg, St(), p, exp);
        tokens := tokens + {t.value};
      } else if exp <= p.at + cfg.retiring + DAY {
        StampKeeps(cfg, St(), p, exp);
        tokens := tokens + {t.value};
      }
    }

    /** The key a verifier is given. */
    method PublicKey(kid: Kid) returns (found: bool)
      requires Valid()
      ensures found <==> kid in keys
      ensures forall t | t in tokens && t.kid == kid && now < t.exp + cfg.skew - lag :: found
      ensures forall p | p in picks && p.kid == kid && now < p.at + cfg.retiring + DAY - lag + cfg.skew :: found
    {
      found := kid in keys;
      forall t | t in tokens && t.kid == kid && now < t.exp + cfg.skew - lag ensures found { Verifiable(cfg, St(), t); }
      forall p | p in picks && p.kid == kid && now < p.at + cfg.retiring + DAY - lag + cfg.skew ensures found {
        PromptVerifiable(cfg, St(), p, p.at + cfg.retiring + DAY - lag);
      }
    }

    method Wait(d: nat)
      requires Valid()
      modifies this`now
      ensures Valid() && now == old(now) + d
    {
      WaitKeeps(cfg, St(), d);
      now := now + d;
    }

    /** NewRing: out-of-range settings become the defaults. */
    constructor (c: Config, at: int)
      ensures Valid() && now == at && keys == map[] && stored == map[] && tokens == {} && picks == {} && gen == 0 && lag == 0
      ensures cfg.access == if 0 < c.access <= 15 * MINUTE then c.access else 15 * MINUTE
      ensures cfg.interval == if 0 < c.interval then c.interval else DAY
      ensures cfg.retiring == if 0 < c.retiring then c.retiring else 30 * MINUTE
      ensures cfg.skew == if 0 < c.skew <= MINUTE then c.skew else MINUTE
    {
      cfg := Config(if c.access <= 0 || c.access > 15 * MINUTE then 15 * MINUTE else c.access,
                    if c.interval <= 0 then DAY else c.interval,
                    if c.retiring <= 0 then 30 * MINUTE else c.retiring,
                    if c.skew <= 0 || c.skew > MINUTE then MINUTE else c.skew);
      now, keys, stored, gen, next, spent := at, map[], map[], 0, 0, {};
      picks, tokens, lag := {}, {}, 0;
    }
  }

  /** Truncation never makes an enrollment token outlive the maximum. */
  lemma LifetimeKept(now: int, ttl: int)
    requires ttl <= DAY
    ensures Floor(now + ttl) - Floor(now) <= DAY
  {
    assert (now + DAY) % SECOND == now % SECOND;
    assert Floor(now + DAY) == Floor(now) + DAY;
    assert Floor(now + ttl) == (now + ttl) / SECOND * SECOND && Floor(now + DAY) == (now + DAY) / SECOND * SECOND;
  }

  /** Each key moved on, and those past their time forgotten. */
  ghost predicate SweptAll(c: Config, now: int, keys0: map<Kid, Key>, keys: map<Kid, Key>) {
    && (forall x :: x in keys <==> x in keys0 && !Past(c, now, keys0[x]))
    && (forall x | x in keys :: keys[x] == Swept(c, now, keys0[x]))
  }

  /** The keys in `done` had their turn; those in `gone` are to be forgotten. */
  ghost predicate Sweeping(c: Config, now: int, keys0: map<Kid, Key>, keys: map<Kid, Key>, stored: map<Kid, Key>, done: set<Kid>, gone: set<Kid>) {
    && keys.Keys == keys0.Keys && done <= keys.Keys
    && (forall x | x in keys :: keys[x] == if x in done then Swept(c, now, keys0[x]) else keys0[x])
    && (forall x :: x in gone <==> x in done && Past(c, now, keys0[x]))
    && (forall x | x in gone :: Past(c, now, keys[x]) && x !in stored)
  }

  lemma SweepNext(c: Config, now: int, keys0: map<Kid, Key>, before: map<Kid, Key>, keys: map<Kid, Key>, stored0: map<Kid, Key>, stored: map<Kid, Key>,
                  done: set<Kid>, gone: set<Kid>, kid: Kid, forget: bool)
    requires Sweeping(c, now, keys0, before, stored0, done, gone) && kid in before && kid !in done
    requires keys.Keys == before.Keys && (forall x | x in keys && x != kid :: keys[x] == before[x])
    requires keys[kid] == Swept(c, now, before[kid]) && (forget <==> Past(c, now, before[kid])) && (forall x | x in stored :: x in stored0)
    requires forget ==> Past(c, now, keys[kid]) && kid !in stored
    ensures Sweeping(c, now, keys0, keys, stored, done + {kid}, if forget then gone + {kid} else gone)
  {
  }

  /** What a sweep that read the clock at `at` makes of a key: an active one stays;
      one that has been retiring for the retiring period is retired, dated by the
      reading; a retired one is forgotten once the longest token it could have
      signed is gone, skew included. */
  ghost predicate KeySwept(c: Config, at: int, k: Key, k': Option<Key>) {
    match k.life
    case Active => k' == Some(k)
    case Retiring =>
      && k.retiringAt.Some?
      && if k.retiringAt.value + c.retiring <= at
         then k'.Some? && k'.value.life == Retired && k'.value.retiredAt == Some(at) && k'.value.created == k.created && k'.value.retiringAt == k.retiringAt
         else k' == Some(k)
    case Retired =>
      && k.retiredAt.Some?
      && if k.retiredAt.value + c.access + c.skew <= at && k.retiredAt.value + DAY + c.skew <= at then k' == None else k' == Some(k)
  }

  ghost predicate SweepIs(c: Config, at: int, keys0: map<Kid, Key>, keys: map<Kid, Key>) {
    && (forall x | x in keys :: x in keys0)
    && (forall x | x in keys0 :: KeySwept(c, at, keys0[x], if x in keys then Some(keys[x]) else None))
  }

  lemma SweptIs(c: Config, s: State, at: int, keys: map<Kid, Key>)
    requires Inv(c, s) && SweptAll(c, at, s.keys, keys)
    ensures SweepIs(c, at, s.keys, keys)
  {
    forall x | x in s.keys ensures KeySwept(c, at, s.keys[x], if x in keys then Some(keys[x]) else None) { assert KeyOk(s.now, s.keys[x]); }
  }

  /** One new key, created and active; whatever was active is retiring since. */
  ghost predicate RotateIs(keys: map<Kid, Key>, keys': map<Kid, Key>, at: int, kid: Kid) {
    && kid !in keys && keys'.Keys == keys.Keys + {kid}
    && keys'[kid].created == at && keys'[kid].life == Active && keys'[kid].retiringAt == None && keys'[kid].retiredAt == None
    && forall x | x in keys ::
         && keys'[x].created == keys[x].created && keys'[x].retiredAt == keys[x].retiredAt
         && if keys[x].life == Active then keys'[x].life == Retiring && keys'[x].retiringAt == Some(at) else keys'[x] == keys[x]
  }

  /** After a rotation: every active key retires, one new key is active. */
  ghost predicate Rotated(keys: map<Kid, Key>, keys': map<Kid, Key>, now: int, kid: Kid) {
    && keys'.Keys == keys.Keys + {kid} && keys'[kid] == Key(now, Active, None, None)
    && forall x | x in keys && x != kid :: keys'[x] == if keys[x].life == Active then Withdrawn(keys[x], now) else keys[x]
  }

  /** What a sweep makes of a key it does not forget. */
  function Swept(c: Config, now: int, k: Key): Key {
    if k.life == Retiring && k.retiringAt.Some? && now - k.retiringAt.value >= c.retiring then Dropped(k, now) else k
  }
}
