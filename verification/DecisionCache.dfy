/** The decision cache of one tenant under interleaved readers and writers
    (internal/authz/client.go, internal/authz/decide.go, internal/cache/cache.go).
    A reader reads the tenant's version, looks an entry of that version up,
    asks the backend if there is none, and stores the answer. A writer changes
    the backend and then bumps the version. */
module DecisionCache {
  import opened Basics
  import opened Permref

  datatype Question = Question(uid: string, perm: Ref)

  /** Client.Allowed and BatchDecide share the entries but encode differently. */
  datatype Kind = Single | Batch

  /** A reader in flight. `version` is -1 when the version could not be read.
      History: `steady` says that no change of the backend was without its bump
      when the reader read the version, `seen` holds the answers the backend
      has had since. */
  datatype Reader = Reader(version: int, q: Question, kind: Kind, answer: Option<bool>, steady: bool, seen: set<bool>)

  /** `dirty`: the backend changed after the last bump. `pending` counts the
      writers between their write and their bump; `lost` records that since the
      last bump a write failed half-way, or a bump failed. */
  datatype State = State(yes: set<Question>, version: nat, entries: map<(int, Question), string>, readers: map<nat, Reader>,
                         dirty: bool, pending: nat, lost: bool)

  datatype Step =
    | Write(yes': set<Question>)
    | WriteFails(yes': set<Question>)
    | Bump
    | BumpFails
    | Start(id: nat, q: Question, kind: Kind, readable: bool)
    | Ask(id: nat)
    | Store(id: nat, reason: string)
    | Expire(at: int, q: Question)
    | Leave(id: nat)

  /** How an answer is stored. */
  function Encode(kind: Kind, answer: bool, reason: string): string {
    if !answer then "0" else if kind == Single then "1" else "role:" + reason
  }

  /** How a stored entry is read back. */
  predicate Decode(kind: Kind, v: string) { if kind == Single then v == "1" else v != "0" }

  function Answer(s: State, q: Question): bool { q in s.yes }

  function Notice(readers: map<nat, Reader>, yes': set<Question>): map<nat, Reader> {
    map id | id in readers :: readers[id].(seen := readers[id].seen + {readers[id].q in yes'})
  }

  predicate Enabled(s: State, step: Step) {
    match step
    case Write(_) => true
    case WriteFails(_) => true
    case Bump => s.pending > 0
    case BumpFails => s.pending > 0
    case Start(id, _, kind, readable) => id !in s.readers
    case Ask(id) => id in s.readers
    case Store(id, _) => id in s.readers && s.readers[id].answer.Some? && (s.readers[id].kind == Single ==> s.readers[id].version >= 0)
    case Expire(_, _) => true
    case Leave(id) => id in s.readers
  }

  function Next(s: State, step: Step): State
    requires Enabled(s, step)
  {
    match step
    case Write(yes') => s.(yes := yes', readers := Notice(s.readers, yes'), dirty := true, pending := s.pending + 1)
    case WriteFails(yes') => s.(yes := yes', readers := Notice(s.readers, yes'), dirty := true, lost := true)
    case Bump => s.(version := s.version + 1, pending := s.pending - 1, dirty := false, lost := false)
    case BumpFails => s.(pending := s.pending - 1, lost := true)
    case Start(id, q, kind, readable) =>
      s.(readers := s.readers[id := Reader(if readable then s.version else -1, q, kind, None, readable && !s.dirty, {Answer(s, q)})])
    case Ask(id) => s.(readers := s.readers[id := s.readers[id].(answer := Some(Answer(s, s.readers[id].q)))])
    case Store(id, reason) =>
      var r := s.readers[id];
      s.(entries := s.entries[(r.version, r.q) := Encode(r.kind, r.answer.value, reason)])
    case Expire(at, q) => s.(entries := s.entries - {(at, q)})
    case Leave(id) => s.(readers := s.readers - {id})
  }

  // ----- the invariant -------------------------------------------------------------------

  predicate Stored(v: string) { v == "0" || v == "1" || (|v| >= 5 && v[..5] == "role:") }

  function Meant(v: string): bool { v != "0" }

  /** The answer the cache or a reader holds for the version is the backend's. */
  ghost predicate Current(s: State) {
    && (forall k | k in s.entries && k.0 == s.version :: Meant(s.entries[k]) == Answer(s, k.1))
    && (forall id | id in s.readers && s.readers[id].version == s.version && s.readers[id].answer.Some? ::
          s.readers[id].answer.value == Answer(s, s.readers[id].q))
  }

  /** What a steady reader may find, or get, is an answer the backend has had
      since the reader began. */
  ghost predicate Witnessed(s: State, r: Reader) {
    r.steady ==>
      && Answer(s, r.q) in r.seen
      && ((r.version, r.q) in s.entries ==> Meant(s.entries[(r.version, r.q)]) in r.seen)
      && (forall id | id in s.readers && s.readers[id].version == r.version && s.readers[id].q == r.q && s.readers[id].answer.Some? ::
            s.readers[id].answer.value in r.seen)
  }

  ghost predicate Versions(s: State) {
    && (forall k | k in s.entries :: k.0 <= s.version && Stored(s.entries[k]))
    && (forall id | id in s.readers :: s.readers[id].version <= s.version)
  }

  ghost predicate Inv(s: State) {
    && Versions(s)
    && (!s.dirty ==> Current(s))
    && (forall id | id in s.readers :: Witnessed(s, s.readers[id]))
    && (s.dirty ==> s.pending > 0 || s.lost)
  }

  lemma EncodeStored(kind: Kind, answer: bool, reason: string)
    ensures Stored(Encode(kind, answer, reason)) && Meant(Encode(kind, answer, reason)) == answer
  {
    if answer && kind == Batch {
      var v := "role:" + reason;
      assert v[..5] == "role:" && |v| >= 5;
    }
  }

  lemma VersionsKept(s: State, step: Step)
    requires Inv(s) && Enabled(s, step)
    ensures Versions(Next(s, step))
  {
    if step.Store? { EncodeStored(s.readers[step.id].kind, s.readers[step.id].answer.value, step.reason); }
  }

  lemma CurrentKept(s: State, step: Step)
    requires Inv(s) && Enabled(s, step) && !Next(s, step).dirty
    ensures Current(Next(s, step))
  {
    if step.Store? { EncodeStored(s.readers[step.id].kind, s.readers[step.id].answer.value, step.reason); }
  }

  lemma WitnessedKept(s: State, step: Step, id: nat)
    requires Inv(s) && Enabled(s, step) && id in Next(s, step).readers
    ensures Witnessed(Next(s, step), Next(s, step).readers[id])
  {
    if id in s.readers { assert Witnessed(s, s.readers[id]); }
    if step.Store? { EncodeStored(s.readers[step.id].kind, s.readers[step.id].answer.value, step.reason); }
  }

  lemma StepKeeps(s: State, step: Step)
    requires Inv(s) && Enabled(s, step)
    ensures Inv(Next(s, step))
  {
    VersionsKept(s, step);
    if !Next(s, step).dirty { CurrentKept(s, step); }
    forall id | id in Next(s, step).readers ensures Witnessed(Next(s, step), Next(s, step).readers[id]) { WitnessedKept(s, step, id); }
  }

  // ----- runs ---------------------------------------------------------------------------------

  ghost predicate Run(s: State, steps: seq<Step>, s': State)
    decreases |steps|
  {
    if steps == [] then s' == s else Enabled(s, steps[0]) && Run(Next(s, steps[0]), steps[1..], s')
  }

  predicate Initial(s: State) { s.entries == map[] && s.readers == map[] && !s.dirty && s.pending == 0 && !s.lost }

  lemma {:induction false} RunKeeps(s: State, steps: seq<Step>, s': State)
    requires Inv(s) && Run(s, steps, s')
    ensures Inv(s')
    decreases |steps|
  {
    if steps != [] {
      StepKeeps(s, steps[0]);
      RunKeeps(Next(s, steps[0]), steps[1..], s');
    }
  }

  /** In every reachable state in which no writer is between its write and its
      bump, and none was lost since the last bump, every entry of the current
      version is the backend's answer. */
  lemma EntriesExact(s0: State, steps: seq<Step>, s: State, q: Question)
    requires Initial(s0) && Run(s0, steps, s) && s.pending == 0 && !s.lost && (s.version as int, q) in s.entries
    ensures Decode(Batch, s.entries[(s.version as int, q)]) <==> q in s.yes
  {
    RunKeeps(s0, steps, s);
  }

  /** Whatever BatchDecide answers, from an entry or from the backend, is an
      answer the backend had between the reader's first step and now, if every
      change of the backend had its bump when the version was read. */
  lemma BatchAnswers(s0: State, steps: seq<Step>, s: State, id: nat)
    requires Initial(s0) && Run(s0, steps, s) && id in s.readers && s.readers[id].steady
    ensures var r := s.readers[id];
            && ((r.version, r.q) in s.entries ==> Decode(Batch, s.entries[(r.version, r.q)]) in r.seen)
            && (r.answer.Some? ==> r.answer.value in r.seen)
  {
    RunKeeps(s0, steps, s);
    assert Witnessed(s, s.readers[id]);
  }

  /** Client.Allowed may deny what BatchDecide found allowed, and errs in no
      other way: its reading of an entry is the backend's answer unless that is
      yes and the entry is BatchDecide's. */
  lemma SingleAnswers(s0: State, steps: seq<Step>, s: State, q: Question)
    requires Initial(s0) && Run(s0, steps, s) && !s.dirty && (s.version as int, q) in s.entries
    ensures var v := s.entries[(s.version as int, q)];
            && (Decode(Single, v) ==> q in s.yes)
            && ((Decode(Single, v) <==> q in s.yes) <==> !(|v| >= 5 && v[..5] == "role:"))
  {
    RunKeeps(s0, steps, s);
    var v := s.entries[(s.version as int, q)];
    assert Stored(v);
    if v == "1" || v == "0" { assert |v| < 5; }
  }

  /** The two encodings do clash: a yes stored by BatchDecide is a no to
      Client.Allowed. */
  lemma SingleMisreads(q: Question, reason: string)
    ensures exists s0, steps, s ::
      Initial(s0) && Run(s0, steps, s) && !s.dirty && q in s.yes && (s.version as int, q) in s.entries && !Decode(Single, s.entries[(s.version as int, q)])
  {
    var s0 := State({q}, 0, map[], map[], false, 0, false);
    var steps := [Start(0, q, Batch, true), Ask(0), Store(0, reason)];
    var s1 := Next(s0, steps[0]);
    var s2 := Next(s1, steps[1]);
    var s := Next(s2, steps[2]);
    assert steps[1..][1..] == [steps[2]] && steps[1..][1..][1..] == [];
    assert Run(s2, [steps[2]], s);
    assert Run(s1, steps[1..], s);
    assert Run(s0, steps, s);
    assert s.entries[(0, q)] == "role:" + reason;
    assert |s.entries[(0, q)]| >= 5;
  }

  /** A write that fails half-way is never bumped: an entry of the current
      version may then be wrong, with no writer left to correct it. */
  lemma LostWriteStale(q: Question)
    ensures exists s0, steps, s ::
      Initial(s0) && Run(s0, steps, s) && s.pending == 0 && (s.version as int, q) in s.entries && Decode(Batch, s.entries[(s.version as int, q)]) && q !in s.yes
  {
    var s0 := State({q}, 0, map[], map[], false, 0, false);
    var steps := [Start(0, q, Batch, true), Ask(0), Store(0, ""), WriteFails({})];
    var s1 := Next(s0, steps[0]);
    var s2 := Next(s1, steps[1]);
    var s3 := Next(s2, steps[2]);
    var s := Next(s3, steps[3]);
    assert steps[1..] == [steps[1], steps[2], steps[3]] && steps[1..][1..] == [steps[2], steps[3]] && steps[1..][1..][1..] == [steps[3]];
    assert Run(s3, [steps[3]], s);
    assert Run(s2, [steps[2], steps[3]], s);
    assert Run(s1, steps[1..], s);
    assert Run(s0, steps, s);
    assert s.entries[(0, q)] == "role:";
  }
}
