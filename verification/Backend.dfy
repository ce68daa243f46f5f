/** Tuple writes (internal/authz/fga.go, the write path of client.go): a write
    is split into requests of at most 100 tuples, each atomic, applied in
    order. */
module Backend {
  import opened Basics
  import opened Tuples

  const MAX_TUPLES_PER_WRITE: nat := 100

  datatype Op = Put(t: Tuple) | Del(t: Tuple)

  /** One write request: its writes are applied before its deletes. */
  datatype Request = Request(writes: seq<Tuple>, deletes: seq<Tuple>) {
    function Size(): nat { |writes| + |deletes| }

    function Ops(): seq<Op> { Puts(writes) + Dels(deletes) }
  }

  function Puts(ts: seq<Tuple>): (ops: seq<Op>)
    ensures |ops| == |ts|
  {
    seq(|ts|, i requires 0 <= i < |ts| => Put(ts[i]))
  }

  function Dels(ts: seq<Tuple>): (ops: seq<Op>)
    ensures |ops| == |ts|
  {
    seq(|ts|, i requires 0 <= i < |ts| => Del(ts[i]))
  }

  function Flatten(reqs: seq<Request>): seq<Op> {
    if reqs == [] then [] else Flatten(reqs[..|reqs| - 1]) + reqs[|reqs| - 1].Ops()
  }

  lemma FlattenPush(reqs: seq<Request>, r: Request)
    ensures Flatten(reqs + [r]) == Flatten(reqs) + r.Ops()
  {
    assert (reqs + [r])[..|reqs|] == reqs;
  }

  lemma PushWrite(before: seq<Op>, r: Request, t: Tuple)
    requires r.deletes == []
    ensures before + Request(r.writes + [t], []).Ops() == before + r.Ops() + [Put(t)]
  {
    assert Puts(r.writes + [t]) == Puts(r.writes) + [Put(t)];
    assert Dels([]) == [];
  }

  lemma PushDelete(before: seq<Op>, r: Request, t: Tuple)
    ensures before + Request(r.writes, r.deletes + [t]).Ops() == before + r.Ops() + [Del(t)]
  {
    assert Dels(r.deletes + [t]) == Dels(r.deletes) + [Del(t)];
  }

  /** Splits adds and removes into requests: nothing is lost, repeated or
      reordered, and every request but the last is full. */
  method WriteChunks(adds: seq<Tuple>, removes: seq<Tuple>) returns (out: seq<Request>)
    ensures Flatten(out) == Puts(adds) + Dels(removes)
    ensures forall i :: 0 <= i < |out| ==> 1 <= out[i].Size() <= MAX_TUPLES_PER_WRITE
    ensures forall i :: 0 <= i < |out| - 1 ==> out[i].Size() == MAX_TUPLES_PER_WRITE
  {
    out := [];
    var cur := Request([], []);
    for i := 0 to |adds|
      invariant cur.deletes == [] && cur.Size() <= MAX_TUPLES_PER_WRITE
      invariant forall j :: 0 <= j < |out| ==> out[j].Size() == MAX_TUPLES_PER_WRITE
      invariant Flatten(out) + cur.Ops() == Puts(adds[..i])
    {
      if cur.Size() == MAX_TUPLES_PER_WRITE {
        FlattenPush(out, cur);
        out, cur := out + [cur], Request([], []);
        assert Flatten(out) + cur.Ops() == Puts(adds[..i]);
      }
      PushWrite(Flatten(out), cur, adds[i]);
      cur := Request(cur.writes + [adds[i]], []);
      assert Puts(adds[..i + 1]) == Puts(adds[..i]) + [Put(adds[i])];
    }
    assert adds[..|adds|] == adds;
    assert Flatten(out) + cur.Ops() == Puts(adds) + Dels(removes[..0]);
    for i := 0 to |removes|
      invariant cur.Size() <= MAX_TUPLES_PER_WRITE
      invariant forall j :: 0 <= j < |out| ==> out[j].Size() == MAX_TUPLES_PER_WRITE
      invariant Flatten(out) + cur.Ops() == Puts(adds) + Dels(removes[..i])
    {
      if cur.Size() == MAX_TUPLES_PER_WRITE {
        FlattenPush(out, cur);
        out, cur := out + [cur], Request([], []);
        assert Flatten(out) + cur.Ops() == Puts(adds) + Dels(removes[..i]);
      }
      PushDelete(Flatten(out), cur, removes[i]);
      cur := Request(cur.writes, cur.deletes + [removes[i]]);
      assert Dels(removes[..i + 1]) == Dels(removes[..i]) + [Del(removes[i])];
      assert Puts(adds) + Dels(removes[..i + 1]) == Puts(adds) + Dels(removes[..i]) + [Del(removes[i])];
    }
    assert removes[..|removes|] == removes;
    if cur.Size() > 0 {
      FlattenPush(out, cur);
      out := out + [cur];
    } else {
      assert cur.Ops() == [];
    }
  }

  // ----- what the requests do ------------------------------------------------

  function Apply(ts: set<Tuple>, ops: seq<Op>): set<Tuple> {
    if ops == [] then ts else
    var before := Apply(ts, ops[..|ops| - 1]);
    match ops[|ops| - 1]
    case Put(t) => before + {t}
    case Del(t) => before - {t}
  }

  lemma {:induction false} ApplyConcat(ts: set<Tuple>, a: seq<Op>, b: seq<Op>)
    ensures Apply(ts, a + b) == Apply(Apply(ts, a), b)
  {
    if b == [] {
      assert a + b == a;
    } else {
      ApplyConcat(ts, a, b[..|b| - 1]);
      assert (a + b)[..|a + b| - 1] == a + b[..|b| - 1];
    }
  }

  lemma {:induction false} ApplyPuts(ts: set<Tuple>, adds: seq<Tuple>)
    ensures Apply(ts, Puts(adds)) == ts + ToSet(adds)
  {
    if adds != [] {
      var shorter := adds[..|adds| - 1];
      ApplyPuts(ts, shorter);
      assert Puts(adds)[..|adds| - 1] == Puts(shorter);
      assert adds == shorter + [adds[|adds| - 1]];
    }
  }

  lemma {:induction false} ApplyDels(ts: set<Tuple>, removes: seq<Tuple>)
    ensures Apply(ts, Dels(removes)) == ts - ToSet(removes)
  {
    if removes != [] {
      var shorter := removes[..|removes| - 1];
      ApplyDels(ts, shorter);
      assert Dels(removes)[..|removes| - 1] == Dels(shorter);
      assert removes == shorter + [removes[|removes| - 1]];
    }
  }

  /** Applying the requests one after the other gives the tuple set of one
      unbounded write: the additions, then the removals. */
  lemma ApplyWrite(ts: set<Tuple>, adds: seq<Tuple>, removes: seq<Tuple>)
    ensures Apply(ts, Puts(adds) + Dels(removes)) == ts + ToSet(adds) - ToSet(removes)
  {
    ApplyConcat(ts, Puts(adds), Dels(removes));
    ApplyPuts(ts, adds);
    ApplyDels(ts + ToSet(adds), removes);
  }

  /** A write that stops after some requests has added only tuples of the
      write and removed only tuples of the write. */
  lemma {:induction false} ApplyPrefix(ts: set<Tuple>, ops: seq<Op>, adds: seq<Tuple>, removes: seq<Tuple>)
    requires ops <= Puts(adds) + Dels(removes)
    ensures ts - ToSet(removes) <= Apply(ts, ops) <= ts + ToSet(adds)
  {
    if ops != [] {
      var last := |ops| - 1;
      ApplyPrefix(ts, ops[..last], adds, removes);
      assert ops[last] == (Puts(adds) + Dels(removes))[last];
    }
  }
}
