/** Turning the app off and removing security keys, when calls of one user
    overlap (internal/mfa/mfa.go, internal/mfa/factors.go,
    internal/webauthn/webauthn.go). Each call checks that a usable factor
    remains, confirms a factor, and takes its own away in a later store call. */
module MfaLastFactor {

  type Call = nat
  type Id = string

  datatype Act = App | Key(id: Id)

  /** `keys` says of each key whether it is flagged as possibly cloned; `passed`
      holds the calls that passed their check. The tenant requires a factor. */
  datatype State = State(app: bool, keys: map<Id, bool>, passed: map<Call, Act>)

  datatype Op = AddApp | AddKey(id: Id) | Check(call: Call, act: Act) | Take(call: Call)

  function UsableKeys(keys: map<Id, bool>): set<Id> { set k | k in keys && !keys[k] }

  predicate Usable(s: State) { s.app || UsableKeys(s.keys) != {} }

  /** A usable factor besides the one the call is about. */
  predicate Another(s: State, act: Act) {
    match act
    case App => UsableKeys(s.keys) != {}
    case Key(id) => s.app || UsableKeys(s.keys) - {id} != {}
  }

  /** The checks of Disable and GuardRemoval: a usable key beside the app; for a
      key that is not flagged, two usable factors. */
  predicate Passes(s: State, act: Act) {
    match act
    case App => UsableKeys(s.keys) != {}
    case Key(id) => id in s.keys && (s.keys[id] || |UsableKeys(s.keys)| + (if s.app then 1 else 0) > 1)
  }

  function Taken(s: State, act: Act): State {
    match act
    case App => s.(app := false)
    case Key(id) => s.(keys := s.keys - {id})
  }

  function Next(s: State, op: Op): State {
    match op
    case AddApp => s.(app := true)
    case AddKey(id) => if id in s.keys then s else s.(keys := s.keys[id := false])
    case Check(c, act) => if Passes(s, act) then s.(passed := s.passed[c := act]) else s
    case Take(c) => if c in s.passed then Taken(s, s.passed[c]).(passed := s.passed - {c}) else s
  }

  predicate Present(s: State, act: Act) { match act case App => s.app case Key(id) => id in UsableKeys(s.keys) }

  /** The call takes a usable factor although no other is left by now. */
  predicate Overtaken(s: State, op: Op) { op.Take? && op.call in s.passed && Present(s, s.passed[op.call]) && !Another(s, s.passed[op.call]) }

  /** One step leaves a usable factor exactly when it is not overtaken. */
  lemma NextUsable(s: State, op: Op)
    requires Usable(s)
    ensures Usable(Next(s, op)) <==> !Overtaken(s, op)
  {
    var t := Next(s, op);
    match op
    case AddApp =>
    case AddKey(id) => if id !in s.keys { assert id in UsableKeys(t.keys); }
    case Check(c, act) =>
    case Take(c) =>
      if c in s.passed && s.passed[c].Key? { assert UsableKeys(t.keys) == UsableKeys(s.keys) - {s.passed[c].id}; }
  }

  ghost predicate AlwaysUsable(s: State, ops: seq<Op>)
    decreases |ops|
  {
    Usable(s) && (ops == [] || AlwaysUsable(Next(s, ops[0]), ops[1..]))
  }

  ghost predicate NoneOvertaken(s: State, ops: seq<Op>)
    decreases |ops|
  {
    ops == [] || (!Overtaken(s, ops[0]) && NoneOvertaken(Next(s, ops[0]), ops[1..]))
  }

  /** In every run of overlapping calls, a user who has a usable factor keeps one
      throughout if and only if no call is overtaken. */
  lemma {:induction false} RunUsable(s: State, ops: seq<Op>)
    requires Usable(s)
    ensures AlwaysUsable(s, ops) <==> NoneOvertaken(s, ops)
    decreases |ops|
  {
    if ops != [] {
      NextUsable(s, ops[0]);
      if Usable(Next(s, ops[0])) { RunUsable(Next(s, ops[0]), ops[1..]); }
    }
  }

  // ----- calls that do not overlap --------------------------------------------------------------

  /** At most one call is under way at any time. */
  ghost predicate Apart(s: State, ops: seq<Op>)
    decreases |ops|
  {
    (forall c, d | c in s.passed && d in s.passed :: c == d) && (ops == [] || Apart(Next(s, ops[0]), ops[1..]))
  }

  /** What the check found still holds: there is another usable factor, or the
      call is about a flagged key. */
  ghost predicate Sure(s: State) { forall c | c in s.passed :: Another(s, s.passed[c]) || Flagged(s, s.passed[c]) }

  predicate Flagged(s: State, act: Act) { act.Key? && act.id in s.keys && s.keys[act.id] }

  lemma PassesAnother(s: State, act: Act)
    requires Passes(s, act) && !Flagged(s, act)
    ensures Another(s, act)
  {
    if act.Key? && !s.app {
      var u := UsableKeys(s.keys);
      var rest := u - {act.id};
      assert u == rest + {act.id};
      assert |u| == |rest| + 1;
    }
  }

  lemma Grown(s: State, id: Id, act: Act)
    requires Another(s, act)
    ensures Another(Next(s, AddKey(id)), act)
  {
    assert UsableKeys(s.keys) <= UsableKeys(Next(s, AddKey(id)).keys);
  }

  lemma NextSure(s: State, op: Op)
    requires Sure(s) && forall c, d | c in s.passed && d in s.passed :: c == d
    ensures Sure(Next(s, op))
  {
    var t := Next(s, op);
    forall c | c in t.passed ensures Another(t, t.passed[c]) || Flagged(t, t.passed[c]) {
      match op
      case AddApp =>
      case AddKey(id) => if Another(s, s.passed[c]) { Grown(s, id, s.passed[c]); }
      case Check(d, act) => if c == d && Passes(s, act) && !Flagged(s, act) { PassesAnother(s, act); }
      case Take(d) =>
    }
  }

  /** Calls that do not overlap never take the last usable factor. */
  lemma {:induction false} ApartUsable(s: State, ops: seq<Op>)
    requires Usable(s) && Sure(s) && Apart(s, ops)
    ensures AlwaysUsable(s, ops)
    decreases |ops|
  {
    if ops != [] {
      NextUsable(s, ops[0]);
      NextSure(s, ops[0]);
      ApartUsable(Next(s, ops[0]), ops[1..]);
    }
  }

  /** A user with the app and one key who turns the app off and removes the key,
      both calls checking first, has no usable factor left. */
  lemma BothTaken(s: State, id: Id, ops: seq<Op>)
    requires s == State(true, map[id := false], map[]) && ops == [Check(0, App), Check(1, Key(id)), Take(0), Take(1)]
    ensures Usable(s) && !AlwaysUsable(s, ops)
  {
    assert id in UsableKeys(s.keys);
    assert UsableKeys(s.keys) == {id};
    var s1 := Next(s, ops[0]);
    var s2 := Next(s1, ops[1]);
    var s3 := Next(s2, ops[2]);
    assert Overtaken(s3, ops[3]);
    assert ops[1..][0] == ops[1] && ops[1..][1..][0] == ops[2] && ops[1..][1..][1..][0] == ops[3];
    assert !NoneOvertaken(s3, ops[1..][1..][1..]);
    assert !NoneOvertaken(s2, ops[1..][1..]);
    assert !NoneOvertaken(s1, ops[1..]);
    RunUsable(s, ops);
  }
}
