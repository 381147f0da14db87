/** Concurrent ADD and GET requests on one store, as lock, get, put and unlock
    steps in any interleaving. GET takes no lock. */
module AddRace {
  import opened Options
  import R = RequestSpec

  type Items = R.Items

  datatype Kind = Add(data: string) | Get

  /** Where a request is; `found` is what its get returned. */
  datatype Phase =
    | Waiting                           // before the lock (ADD) or the read (GET)
    | Locked
    | Looked(found: Option<string>)
    | Written                           // ADD that has put
    | Refused                           // ADD that found the key
    | Done(stored: bool)                // after unlock; ADD: STORED or NOT_STORED
    | Answered(value: Option<string>)   // GET

  datatype Job = Job(key: string, kind: Kind, phase: Phase)

  /** `holder` is the request that owns the store's mutex. */
  datatype State = State(items: Items, holder: Option<nat>, jobs: map<nat, Job>)

  ghost predicate Init(s: State) {
    s.holder.None? && forall id | id in s.jobs :: s.jobs[id].phase.Waiting?
  }

  function Lookup(items: Items, key: string): Option<string> {
    if key in items then Some(items[key]) else None
  }

  predicate Enabled(s: State, id: nat) {
    && id in s.jobs
    && !s.jobs[id].phase.Done? && !s.jobs[id].phase.Answered?
    && (s.jobs[id].kind.Add? && s.jobs[id].phase.Waiting? ==> s.holder.None?)
  }

  function SetPhase(s: State, id: nat, phase: Phase): State
    requires id in s.jobs
  {
    s.(jobs := s.jobs[id := s.jobs[id].(phase := phase)])
  }

  function Step(s: State, id: nat): State
    requires Enabled(s, id)
  {
    var j := s.jobs[id];
    match j.kind
    case Get => SetPhase(s, id, Answered(Lookup(s.items, j.key)))
    case Add(data) =>
      match j.phase
      case Waiting => SetPhase(s.(holder := Some(id)), id, Locked)
      case Locked => SetPhase(s, id, Looked(Lookup(s.items, j.key)))
      case Looked(found) =>
        if found.None? then SetPhase(s.(items := s.items[j.key := data]), id, Written)
        else SetPhase(s, id, Refused)
      case Written => SetPhase(s.(holder := None), id, Done(true))
      case Refused => SetPhase(s.(holder := None), id, Done(false))
      case _ => s
  }

  ghost predicate IsRun(states: seq<State>, ids: seq<nat>) {
    && |states| == |ids| + 1
    && Init(states[0])
    && forall i | 0 <= i < |ids| :: Enabled(states[i], ids[i]) && states[i + 1] == Step(states[i], ids[i])
  }

  predicate InSection(p: Phase) {
    p.Locked? || p.Looked? || p.Written? || p.Refused?
  }

  predicate HasPut(p: Phase) {
    p.Written? || p == Done(true)
  }

  ghost predicate JobOk(s: State, id: nat)
    requires id in s.jobs
  {
    var j := s.jobs[id];
    && (j.kind.Add? ==> (InSection(j.phase) <==> s.holder == Some(id)) && !j.phase.Answered?)
    && (j.kind.Get? ==> j.phase.Waiting? || j.phase.Answered?)
    && (j.phase.Looked? ==> j.phase.found == Lookup(s.items, j.key))
    && (HasPut(j.phase) ==> Lookup(s.items, j.key) == Some(j.kind.data))
    && (j.phase.Refused? || j.phase == Done(false) ==> j.key in s.items)
  }

  /** `initial` is the store before the run. */
  ghost predicate Inv(s: State, initial: Items) {
    && (s.holder.Some? ==> s.holder.value in s.jobs && s.jobs[s.holder.value].kind.Add?)
    && (forall id | id in s.jobs :: JobOk(s, id))
    && (forall id | id in s.jobs && HasPut(s.jobs[id].phase) :: s.jobs[id].key !in initial)
    && (forall a, b | a in s.jobs && b in s.jobs && a != b && HasPut(s.jobs[a].phase) && HasPut(s.jobs[b].phase) ::
          s.jobs[a].key != s.jobs[b].key)
    && (forall k | k in initial :: k in s.items && s.items[k] == initial[k])
    && (forall k | k in s.items && k !in initial ::
          exists id :: id in s.jobs && HasPut(s.jobs[id].phase) && s.jobs[id].key == k)
  }

  lemma InitSatisfiesInv(s: State)
    requires Init(s)
    ensures Inv(s, s.items)
  {
  }

  lemma JobsKeep(s: State, id: nat, initial: Items, o: nat)
    requires Inv(s, initial) && Enabled(s, id) && o in s.jobs
    ensures JobOk(Step(s, id), o)
    ensures HasPut(Step(s, id).jobs[o].phase) ==> s.jobs[o].key !in initial
    ensures Step(s, id).jobs[o].key == s.jobs[o].key && Step(s, id).jobs[o].kind == s.jobs[o].kind
    ensures HasPut(s.jobs[o].phase) ==> HasPut(Step(s, id).jobs[o].phase)
  {
    assert JobOk(s, o) && JobOk(s, id);
  }

  lemma ItemsKeep(s: State, id: nat, initial: Items)
    requires Inv(s, initial) && Enabled(s, id)
    ensures forall k | k in s.items :: k in Step(s, id).items && Step(s, id).items[k] == s.items[k]
    ensures forall k | k in Step(s, id).items && k !in s.items ::
              k == s.jobs[id].key && HasPut(Step(s, id).jobs[id].phase)
  {
    assert JobOk(s, id);
  }

  lemma StepKeepsInv(s: State, id: nat, initial: Items)
    requires Inv(s, initial) && Enabled(s, id)
    ensures Inv(Step(s, id), initial)
  {
    var s' := Step(s, id);
    assert JobOk(s, id);
    ItemsKeep(s, id, initial);
    forall o | o in s'.jobs
      ensures JobOk(s', o) && (HasPut(s'.jobs[o].phase) ==> s'.jobs[o].key !in initial)
    {
      JobsKeep(s, id, initial, o);
    }
    forall k | k in s'.items && k !in initial
      ensures exists o :: o in s'.jobs && HasPut(s'.jobs[o].phase) && s'.jobs[o].key == k
    {
      var o := if k in s.items then WriterOf(s, initial, k) else id;
      JobsKeep(s, id, initial, o);
    }
    OneWriterPerKey(s, id, initial);
  }

  ghost function WriterOf(s: State, initial: Items, k: string): (o: nat)
    requires Inv(s, initial) && k in s.items && k !in initial
    ensures o in s.jobs && HasPut(s.jobs[o].phase) && s.jobs[o].key == k
  {
    var o :| o in s.jobs && HasPut(s.jobs[o].phase) && s.jobs[o].key == k;
    o
  }

  lemma OneWriterPerKey(s: State, id: nat, initial: Items)
    requires Inv(s, initial) && Enabled(s, id)
    ensures var s' := Step(s, id);
            forall a, b | a in s'.jobs && b in s'.jobs && a != b && HasPut(s'.jobs[a].phase) && HasPut(s'.jobs[b].phase) ::
              s'.jobs[a].key != s'.jobs[b].key
  {
    var s' := Step(s, id);
    forall a, b | a in s'.jobs && b in s'.jobs && a != b && HasPut(s'.jobs[a].phase) && HasPut(s'.jobs[b].phase)
      ensures s'.jobs[a].key != s'.jobs[b].key
    {
      assert JobOk(s, a) && JobOk(s, b) && JobOk(s, id);
    }
  }

  lemma {:induction false} RunKeepsInv(states: seq<State>, ids: seq<nat>, j: nat)
    requires IsRun(states, ids) && j <= |ids|
    ensures Inv(states[j], states[0].items)
  {
    if j == 0 {
      InitSatisfiesInv(states[0]);
    } else {
      RunKeepsInv(states, ids, j - 1);
      StepKeepsInv(states[j - 1], ids[j - 1], states[0].items);
    }
  }

  /** A key's value, once there, never changes. */
  lemma {:induction false} ValuesNeverChange(states: seq<State>, ids: seq<nat>, i: nat, j: nat, k: string)
    requires IsRun(states, ids) && i <= j <= |ids| && k in states[i].items
    ensures k in states[j].items && states[j].items[k] == states[i].items[k]
    decreases j - i
  {
    if i < j {
      ValuesNeverChange(states, ids, i, j - 1, k);
      RunKeepsInv(states, ids, j - 1);
      assert JobOk(states[j - 1], ids[j - 1]);
      assert states[j] == Step(states[j - 1], ids[j - 1]);
    }
  }

  ghost predicate IsAdd(s: State, id: nat, k: string) {
    id in s.jobs && s.jobs[id].kind.Add? && s.jobs[id].key == k
  }

  /** On a store that lacks k at first: at most one ADD of k replies STORED, every
      other one that completes replies NOT_STORED, as soon as one has completed
      exactly one has put, and the value is that one's from then on. */
  lemma OneAddWins(states: seq<State>, ids: seq<nat>, j: nat, k: string)
    requires IsRun(states, ids) && j <= |ids| && k !in states[0].items
    ensures forall a, b | IsAdd(states[j], a, k) && IsAdd(states[j], b, k) && a != b
                          && states[j].jobs[a].phase == Done(true) && states[j].jobs[b].phase.Done? ::
              states[j].jobs[b].phase == Done(false)
    ensures forall b | IsAdd(states[j], b, k) && states[j].jobs[b].phase.Done? ::
              exists a :: IsAdd(states[j], a, k) && HasPut(states[j].jobs[a].phase)
                          && Lookup(states[j].items, k) == Some(states[j].jobs[a].kind.data)
    ensures forall a, m | IsAdd(states[j], a, k) && HasPut(states[j].jobs[a].phase) && j <= m <= |ids| ::
              Lookup(states[m].items, k) == Some(states[j].jobs[a].kind.data)
  {
    RunKeepsInv(states, ids, j);
    var s := states[j];
    forall b | IsAdd(s, b, k) && s.jobs[b].phase.Done?
      ensures exists a :: IsAdd(s, a, k) && HasPut(s.jobs[a].phase) && Lookup(s.items, k) == Some(s.jobs[a].kind.data)
    {
      assert JobOk(s, b);
      var a :| a in s.jobs && HasPut(s.jobs[a].phase) && s.jobs[a].key == k;
      assert JobOk(s, a) && IsAdd(s, a, k);
    }
    forall a, m | IsAdd(s, a, k) && HasPut(s.jobs[a].phase) && j <= m <= |ids|
      ensures Lookup(states[m].items, k) == Some(s.jobs[a].kind.data)
    {
      assert JobOk(s, a);
      ValuesNeverChange(states, ids, j, m, k);
    }
  }

  /** A GET answers with nothing or with the value of the one ADD that put. */
  lemma GetSeesOnlyTheWinner(states: seq<State>, ids: seq<nat>, j: nat, id: nat)
    requires IsRun(states, ids) && j < |ids| && ids[j] == id
    requires states[j].jobs[id].kind.Get? && states[j].jobs[id].key !in states[0].items
    ensures var k, answer := states[j].jobs[id].key, states[j + 1].jobs[id].phase;
            && answer.Answered?
            && (answer.value.Some? ==>
                  exists a :: IsAdd(states[j], a, k) && HasPut(states[j].jobs[a].phase)
                              && answer.value == Some(states[j].jobs[a].kind.data))
  {
    RunKeepsInv(states, ids, j);
    var s, k := states[j], states[j].jobs[id].key;
    assert states[j + 1] == Step(s, id);
    if k in s.items {
      var a :| a in s.jobs && HasPut(s.jobs[a].phase) && s.jobs[a].key == k;
      assert JobOk(s, a) && IsAdd(s, a, k);
    }
  }

  function ReplyOf(p: Phase): string {
    match p
    case Done(stored) => if stored then "STORED\r\n" else "NOT_STORED\r\n"
    case _ => ""
  }

  /** Run without interruption, the four steps of an ADD are what one request does. */
  lemma AddAloneIsOneRequest(s: State, id: nat)
    requires Enabled(s, id) && s.jobs[id].kind.Add? && s.jobs[id].phase.Waiting?
    ensures var s1 := Step(s, id);
            && Enabled(s1, id) && Enabled(Step(s1, id), id) && Enabled(Step(Step(s1, id), id), id)
            && var s4 := Step(Step(Step(s1, id), id), id);
            && s4.holder.None?
            && R.Reply(ReplyOf(s4.jobs[id].phase), s4.items) ==
               R.Execute(R.ADD, [s.jobs[id].key], s.jobs[id].kind.data, s.items)
  {
    var s1 := Step(s, id);
    var s2 := Step(s1, id);
    var s3 := Step(s2, id);
    assert s2.jobs[id].phase == Looked(Lookup(s.items, s.jobs[id].key));
    assert Enabled(s3, id);
  }
}
