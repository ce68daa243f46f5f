/** Sign-ins of one user that overlap (internal/mfa/mfa.go). Verify reads the
    user with the last accepted step, and stores the new one in a later call;
    the store keeps the larger of the two and reports no conflict. */
module MfaOverlap {

  type Call = nat

  /** `seen` holds, for every Verify under way, the last step it read. */
  datatype State = State(last: int, seen: map<Call, int>, accepted: seq<int>)

  datatype Op = Read(call: Call) | Store(call: Call, step: int)

  function Next(s: State, op: Op): State {
    match op
    case Read(c) => s.(seen := s.seen[c := s.last])
    case Store(c, x) =>
      if c !in s.seen then s
      else if x <= s.seen[c] then s.(seen := s.seen - {c})
      else State(if x > s.last then x else s.last, s.seen - {c}, s.accepted + [x])
  }

  function Run(s: State, ops: seq<Op>): State
    decreases |ops|
  {
    if ops == [] then s else Next(Run(s, ops[..|ops| - 1]), ops[|ops| - 1])
  }

  /** The promise: no step is accepted twice, nor after a later one. */
  ghost predicate Rising(acc: seq<int>) { forall i, j :: 0 <= i < j < |acc| ==> acc[i] < acc[j] }

  ghost predicate Inv(s: State) {
    && (forall i :: 0 <= i < |s.accepted| ==> s.accepted[i] <= s.last)
    && (forall c | c in s.seen :: s.seen[c] <= s.last)
    && (s.last in s.accepted || (s.accepted == [] && forall c | c in s.seen :: s.seen[c] == s.last))
  }

  /** The step is after the one this call read, and not after the one that
      another call stored meanwhile. */
  predicate Overtaken(s: State, op: Op) {
    op.Store? && op.call in s.seen && s.seen[op.call] < op.step <= s.last
  }

  predicate NoneOvertaken(s: State, ops: seq<Op>)
    decreases |ops|
  {
    ops == [] || (var n := |ops| - 1; NoneOvertaken(s, ops[..n]) && !Overtaken(Run(s, ops[..n]), ops[n]))
  }

  lemma NextKeeps(s: State, op: Op)
    requires Inv(s)
    ensures Inv(Next(s, op))
  {
    if op.Store? && op.call in s.seen && op.step > s.seen[op.call] {
      var t := Next(s, op);
      assert t.accepted[|s.accepted|] == op.step;
      if s.last in s.accepted {
        var i :| 0 <= i < |s.accepted| && s.accepted[i] == s.last;
        assert t.accepted[i] == s.last;
      }
    }
  }

  /** One step keeps the order exactly when it is not overtaken. */
  lemma NextRises(s: State, op: Op)
    requires Inv(s)
    ensures Rising(Next(s, op).accepted) <==> Rising(s.accepted) && !Overtaken(s, op)
  {
    var t := Next(s, op);
    if op.Store? && op.call in s.seen && op.step > s.seen[op.call] {
      assert forall i :: 0 <= i < |s.accepted| ==> t.accepted[i] == s.accepted[i];
      if Overtaken(s, op) {
        var i :| 0 <= i < |s.accepted| && s.accepted[i] == s.last;
        assert t.accepted[i] >= t.accepted[|s.accepted|];
      } else if Rising(t.accepted) {
        assert forall i, j :: 0 <= i < j < |s.accepted| ==> t.accepted[i] < t.accepted[j];
      }
    }
  }

  /** In every run of overlapping calls, the accepted steps strictly increase
      exactly when no call is overtaken. */
  lemma {:induction false} RunRises(s: State, ops: seq<Op>)
    requires Inv(s) && Rising(s.accepted)
    ensures Inv(Run(s, ops))
    ensures Rising(Run(s, ops).accepted) <==> NoneOvertaken(s, ops)
    decreases |ops|
  {
    if ops != [] {
      var n := |ops| - 1;
      RunRises(s, ops[..n]);
      NextKeeps(Run(s, ops[..n]), ops[n]);
      NextRises(Run(s, ops[..n]), ops[n]);
    }
  }

  /** A call that stores before any other call does is never overtaken. */
  lemma AloneNotOvertaken(s: State, c: Call, x: int)
    requires Inv(s)
    ensures !Overtaken(Next(s, Read(c)), Store(c, x))
  {
  }

  /** Two calls that both read before either stores accept one step twice. */
  lemma SameStepTwice(s: State, x: int, ops: seq<Op>)
    requires Inv(s) && x > s.last && ops == [Read(0), Read(1), Store(0, x), Store(1, x)]
    ensures Run(s, ops).accepted == s.accepted + [x, x]
    ensures Overtaken(Run(s, ops[..3]), ops[3]) && !Rising(Run(s, ops).accepted)
  {
    assert ops[..3][..2] == ops[..2] && ops[..2][..1] == ops[..1] && ops[..1][..0] == [];
    var a := Next(s, Read(0));
    var b := Next(a, Read(1));
    var d := Next(b, Store(0, x));
    assert Run(s, ops[..0]) == s;
    assert Run(s, ops[..1]) == a;
    assert Run(s, ops[..2]) == b;
    assert Run(s, ops[..3]) == d;
    var acc := Run(s, ops).accepted;
    assert acc[|s.accepted|] == acc[|s.accepted| + 1] == x;
  }
}
