/** Signing keys and the tokens they sign (internal/token/ring.go,
    internal/token/jwt.go, internal/token/enroll.go), as one state: the keys in
    memory, the keys in the store, the issuers that picked a key, and the
    tokens handed out. Every step of the ring keeps the invariant. */
module KeyLife {
  import opened Basics

  const SECOND := 1_000_000_000
  const MINUTE := 60 * SECOND
  const DAY := 24 * 60 * MINUTE
  const DEFAULT_ENROLL := 10 * MINUTE

  /** Numeric dates are whole seconds. */
  function Floor(t: int): (r: int)
    ensures r <= t < r + SECOND
  {
    t - t % SECOND
  }

  type Kid = int

  datatype Life = Active | Retiring | Retired

  datatype Key = Key(created: int, life: Life, retiringAt: Option<int>, retiredAt: Option<int>)

  /** An issuer took the key while it was active. `gen` counts reloads: after
      one, the issuer holds an object the ring no longer updates. */
  datatype Pick = Pick(kid: Kid, at: int, gen: nat)

  datatype Token = Token(kid: Kid, exp: int)

  datatype Config = Config(access: int, interval: int, retiring: int, skew: int) {
    /** What NewRing makes of any configuration. */
    predicate Valid() { 0 < access <= 15 * MINUTE && 0 < interval && 0 < retiring && 0 < skew <= MINUTE }

    /** How long a retired key is kept. */
    function Keep(): int { (if access > DAY then access else DAY) + skew }
  }

  /** `spent` holds the objects whose private half was dropped. The ring reads
      the clock before it waits for its lock and for the store; `lag` is the
      longest time so far between such a reading and the change it dates. */
  datatype State = State(now: int, keys: map<Kid, Key>, stored: map<Kid, Key>, gen: nat, next: Kid, spent: set<(nat, Kid)>,
                         picks: set<Pick>, tokens: set<Token>, lag: nat)

  function Longer(lag: nat, d: nat): nat { if d > lag then d else lag }

  // ----- the invariant -------------------------------------------------------------------

  predicate SameLife(a: Key, b: Key) {
    a.life == b.life && (a.life == Retiring ==> a.retiringAt == b.retiringAt) && (a.life == Retired ==> a.retiredAt == b.retiredAt)
  }

  predicate Past(c: Config, now: int, k: Key) { k.life == Retired && k.retiredAt.Some? && now >= k.retiredAt.value + c.Keep() }

  predicate KeyOk(now: int, k: Key) {
    && (k.life == Retiring ==> k.retiringAt.Some? && k.retiringAt.value <= now)
    && (k.life == Retired ==> k.retiredAt.Some? && k.retiredAt.value <= now)
  }

  /** Memory and store agree, but for keys already due to be forgotten. */
  ghost predicate Mirrored(c: Config, s: State) {
    && s.stored.Keys <= s.keys.Keys
    && forall kid | kid in s.keys :: if kid in s.stored then SameLife(s.keys[kid], s.stored[kid]) else Past(c, s.now, s.keys[kid])
  }

  ghost predicate OneActive(keys: map<Kid, Key>) {
    forall a, b | a in keys && b in keys && keys[a].life == Active && keys[b].life == Active :: a == b
  }

  predicate NotBefore(a: int, t: Option<int>) { t.Some? && a <= t.value }

  /** The picked key stays until its last token may be gone, but for the lag. */
  ghost predicate PickOk(c: Config, s: State, p: Pick) {
    && p.at <= s.now && p.kid < s.next && p.gen <= s.gen
    && (p.kid in s.keys ==>
          && (s.keys[p.kid].life == Retiring ==> NotBefore(p.at - s.lag, s.keys[p.kid].retiringAt))
          && (s.keys[p.kid].life == Retired ==> NotBefore(p.at + c.retiring - s.lag, s.keys[p.kid].retiredAt)))
    && (p.kid !in s.keys ==> p.at + c.retiring + c.Keep() - s.lag <= s.now)
    && (p.gen == s.gen && (p.gen, p.kid) !in s.spent ==> p.kid in s.keys && s.keys[p.kid].life != Retired)
  }

  ghost predicate TokenOk(c: Config, s: State, t: Token) {
    && t.exp <= s.now + DAY && t.kid < s.next
    && (t.kid in s.keys && s.keys[t.kid].life == Retired ==> NotBefore(t.exp - DAY - s.lag, s.keys[t.kid].retiredAt))
    && (t.kid !in s.keys ==> t.exp + c.skew - s.lag <= s.now)
  }

  ghost predicate Inv(c: Config, s: State) {
    && c.Valid()
    && (forall kid | kid in s.keys :: kid < s.next && KeyOk(s.now, s.keys[kid]))
    && OneActive(s.keys) && Mirrored(c, s)
    && (forall p | p in s.picks :: PickOk(c, s, p))
    && (forall t | t in s.tokens :: TokenOk(c, s, t))
  }

  /** Every token handed out finds its key until it has expired, skew included
      and the lag taken off. */
  lemma Verifiable(c: Config, s: State, t: Token)
    requires Inv(c, s) && t in s.tokens && s.now < t.exp + c.skew - s.lag
    ensures t.kid in s.keys
  {
    assert TokenOk(c, s, t);
  }

  /** To the full, a token that expires soon enough after its key was picked. */
  lemma PromptVerifiable(c: Config, s: State, p: Pick, exp: int)
    requires Inv(c, s) && p in s.picks && exp <= p.at + c.retiring + DAY - s.lag && s.now < exp + c.skew
    ensures p.kid in s.keys
  {
    assert PickOk(c, s, p);
  }

  /** The store never has two active keys either. */
  lemma StoreOneActive(c: Config, s: State)
    requires Inv(c, s)
    ensures OneActive(s.stored)
  {
  }

  // ----- the steps -------------------------------------------------------------------------

  function Set(s: State, kid: Kid, k: Key, st: Key): State { s.(keys := s.keys[kid := k], stored := s.stored[kid := st]) }

  function Withdrawn(k: Key, at: int): Key { k.(life := Retiring, retiringAt := Some(at)) }

  /** The active key begins to retire, in the store and in memory, dated `at`. */
  function RetiredIn(s: State, kid: Kid, at: int): State
    requires kid in s.keys && kid in s.stored && at <= s.now
  {
    Set(s, kid, Withdrawn(s.keys[kid], at), Withdrawn(s.stored[kid], at)).(lag := Longer(s.lag, s.now - at))
  }

  lemma RetireKeeps(c: Config, s: State, kid: Kid, at: int)
    requires Inv(c, s) && kid in s.keys && kid in s.stored && s.keys[kid].life == Active && at <= s.now
    ensures Inv(c, RetiredIn(s, kid, at))
  {
    var s' := RetiredIn(s, kid, at);
    forall p | p in s'.picks ensures PickOk(c, s', p) { assert PickOk(c, s, p); }
    forall t | t in s'.tokens ensures TokenOk(c, s', t) { assert TokenOk(c, s, t); }
  }

  /** A rotation is rolled back: the store row keeps its retiring time. */
  lemma RestoreKeeps(c: Config, s: State, kid: Kid)
    requires Inv(c, s) && kid in s.keys && kid in s.stored && s.keys[kid].life == Retiring
    requires forall x | x in s.keys :: s.keys[x].life != Active
    ensures Inv(c, Set(s, kid, s.keys[kid].(life := Active, retiringAt := None), s.stored[kid].(life := Active)))
  {
    var s' := Set(s, kid, s.keys[kid].(life := Active, retiringAt := None), s.stored[kid].(life := Active));
    forall p | p in s'.picks ensures PickOk(c, s', p) { assert PickOk(c, s, p); }
    forall t | t in s'.tokens ensures TokenOk(c, s', t) { assert TokenOk(c, s, t); }
  }

  function Inserted(s: State, at: int): State { Set(s, s.next, Key(at, Active, None, None), Key(at, Active, None, None)).(next := s.next + 1) }

  lemma InsertKeeps(c: Config, s: State, at: int)
    requires Inv(c, s) && forall x | x in s.keys :: s.keys[x].life != Active
    ensures Inv(c, Inserted(s, at))
  {
    var s' := Inserted(s, at);
    assert s.next !in s.keys;
    forall p | p in s'.picks ensures PickOk(c, s', p) { assert PickOk(c, s, p); }
    forall t | t in s'.tokens ensures TokenOk(c, s', t) { assert TokenOk(c, s, t); }
  }

  function Dropped(k: Key, at: int): Key { k.(life := Retired, retiredAt := Some(at)) }

  /** A retiring key is retired, dated `at`: its private half is dropped. */
  function DroppedIn(s: State, kid: Kid, at: int): State
    requires kid in s.keys && kid in s.stored && at <= s.now
  {
    Set(s, kid, Dropped(s.keys[kid], at), Dropped(s.stored[kid], at)).(spent := s.spent + {(s.gen, kid)}, lag := Longer(s.lag, s.now - at))
  }

  lemma DropKeeps(c: Config, s: State, kid: Kid, at: int)
    requires Inv(c, s) && kid in s.keys && kid in s.stored && s.keys[kid].life == Retiring && s.keys[kid].retiringAt.value + c.retiring <= at <= s.now
    ensures Inv(c, DroppedIn(s, kid, at))
  {
    var s' := DroppedIn(s, kid, at);
    forall p | p in s'.picks ensures PickOk(c, s', p) { assert PickOk(c, s, p); }
    forall t | t in s'.tokens ensures TokenOk(c, s', t) { assert TokenOk(c, s, t); }
  }

  /** A key past its time leaves the store. */
  lemma RemoveKeeps(c: Config, s: State, kid: Kid)
    requires Inv(c, s) && kid in s.keys && Past(c, s.now, s.keys[kid])
    ensures Inv(c, s.(stored := s.stored - {kid}))
  {
    var s' := s.(stored := s.stored - {kid});
    forall p | p in s'.picks ensures PickOk(c, s', p) { assert PickOk(c, s, p); }
    forall t | t in s'.tokens ensures TokenOk(c, s', t) { assert TokenOk(c, s, t); }
  }

  /** Keys past their time, and out of the store, leave the memory. */
  lemma ForgetKeeps(c: Config, s: State, gone: set<Kid>)
    requires Inv(c, s) && forall kid | kid in gone :: kid in s.keys && Past(c, s.now, s.keys[kid]) && kid !in s.stored
    ensures Inv(c, s.(keys := s.keys - gone))
  {
    var s' := s.(keys := s.keys - gone);
    forall kid | kid in s'.stored ensures kid in s'.keys { assert kid in s.keys; }
    forall p | p in s'.picks ensures PickOk(c, s', p) { assert PickOk(c, s, p); }
    forall t | t in s'.tokens ensures TokenOk(c, s', t) { assert TokenOk(c, s, t); }
  }

  /** Memory is read anew from the store. */
  lemma ReloadKeeps(c: Config, s: State)
    requires Inv(c, s)
    ensures Inv(c, s.(keys := s.stored, gen := s.gen + 1))
  {
    var s' := s.(keys := s.stored, gen := s.gen + 1);
    forall kid | kid in s'.keys ensures kid < s'.next && KeyOk(s'.now, s'.keys[kid]) && SameLife(s'.keys[kid], s'.stored[kid]) { assert kid in s.keys; }
    forall p | p in s'.picks ensures PickOk(c, s', p) { assert PickOk(c, s, p); }
    forall t | t in s'.tokens ensures TokenOk(c, s', t) { assert TokenOk(c, s, t); }
  }

  lemma WaitKeeps(c: Config, s: State, d: nat)
    requires Inv(c, s)
    ensures Inv(c, s.(now := s.now + d))
  {
    var s' := s.(now := s.now + d);
    forall p | p in s'.picks ensures PickOk(c, s', p) { assert PickOk(c, s, p); }
    forall t | t in s'.tokens ensures TokenOk(c, s', t) { assert TokenOk(c, s, t); }
  }

  lemma PickKeeps(c: Config, s: State, kid: Kid)
    requires Inv(c, s) && kid in s.keys && s.keys[kid].life == Active
    ensures Inv(c, s.(picks := s.picks + {Pick(kid, s.now, s.gen)}))
  {
    var s' := s.(picks := s.picks + {Pick(kid, s.now, s.gen)});
    forall p | p in s'.picks ensures PickOk(c, s', p) { if p in s.picks { assert PickOk(c, s, p); } }
    forall t | t in s'.tokens ensures TokenOk(c, s', t) { assert TokenOk(c, s, t); }
  }

  function WithToken(s: State, t: Token): State { s.(tokens := s.tokens + {t}) }

  /** A token dated soon enough after its key was picked. */
  lemma StampKeeps(c: Config, s: State, p: Pick, exp: int)
    requires Inv(c, s) && p in s.picks && exp <= s.now + DAY && exp <= p.at + c.retiring + DAY
    ensures Inv(c, WithToken(s, Token(p.kid, exp)))
  {
    var s' := WithToken(s, Token(p.kid, exp));
    assert PickOk(c, s, p);
    forall q | q in s'.picks ensures PickOk(c, s', q) { assert PickOk(c, s, q); }
    forall t | t in s'.tokens ensures TokenOk(c, s', t) { if t in s.tokens { assert TokenOk(c, s, t); } }
  }

  /** A token signed with the private half the ring still holds. */
  lemma SignKeeps(c: Config, s: State, p: Pick, exp: int)
    requires Inv(c, s) && p in s.picks && p.gen == s.gen && (p.gen, p.kid) !in s.spent && exp <= s.now + DAY
    ensures Inv(c, WithToken(s, Token(p.kid, exp)))
  {
    var s' := WithToken(s, Token(p.kid, exp));
    assert PickOk(c, s, p);
    forall q | q in s'.picks ensures PickOk(c, s', q) { assert PickOk(c, s, q); }
    forall t | t in s'.tokens ensures TokenOk(c, s', t) { if t in s.tokens { assert TokenOk(c, s, t); } }
  }
}
