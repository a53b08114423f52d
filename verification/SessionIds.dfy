// Creating and destroying sessions from any number of threads: every critical section is one atomic step.
module SessionIds {
  import opened FreeLists
  import opened Registries
  import opened Sequences

  /** What a thread has got so far: an id, an id and a slot, or the slot of a session whose id it has given back. */
  datatype Phase = Idle | Chosen(id: int) | Placed(id: int, p: nat) | Unlisted(p: nat)

  /** Who has an id that is not on the stack. */
  datatype IdHolder = Creator(t: nat) | Session(p: nat) | Nobody

  /** Who has a slot that is not on the free list. */
  datatype SlotHolder = Maker(t: nat) | Id(id: int) | Freer(t: nat)

  datatype State = State(
    registry: Registry,
    chain: seq<nat>,               // the pool's free list
    infos: map<nat, int>,          // the id stored in each session
    phases: map<nat, Phase>,
    ids: map<int, IdHolder>,       // every id but those on the stack
    slots: map<nat, SlotHolder>)   // every slot but those on the free list

  datatype Step =
    | Generate(t: nat)          // CreateSession: the manager's lock
    | Allocate(t: nat)          // the pool's lock
    | Insert(t: nat)            // the manager's lock
    | Remove(t: nat, p: nat)    // DestroySession: the manager's lock
    | Deallocate(t: nat)        // the pool's lock
    | Deactivate(id: int)       // a session in use is closing

  function PhaseOf(s: State, t: nat): Phase {
    if t in s.phases then s.phases[t] else Idle
  }

  function Start(n: nat, chain: seq<nat>): State {
    State(Initial(n, n), chain, map[], map[], map[], map[])
  }

  /** Each session is destroyed once: by one thread, after it has been created. */
  predicate Enabled(s: State, step: Step) {
    match step
    case Generate(t) => PhaseOf(s, t).Idle?
    case Allocate(t) => PhaseOf(s, t).Chosen?
    case Insert(t) => PhaseOf(s, t).Placed?
    case Remove(t, p) => PhaseOf(s, t).Idle? && p in s.slots && s.slots[p].Id? && p in s.infos
    case Deallocate(t) => PhaseOf(s, t).Unlisted?
    case Deactivate(id) => id in s.ids && s.ids[id].Session?
  }

  function Next(s: State, step: Step): State
    requires Enabled(s, step)
  {
    match step
    case Generate(t) =>
      if s.registry.free == [] then s
      else
        var id := TopId(s.registry);
        s.(registry := Generated(s.registry), phases := s.phases[t := Chosen(id)], ids := s.ids[id := Creator(t)])
    case Allocate(t) =>
      var id := s.phases[t].id;
      if s.chain == [] then s.(phases := s.phases[t := Idle], ids := s.ids[id := Nobody])
      else
        var p := s.chain[0];
        s.(chain := s.chain[1..], infos := s.infos[p := id], phases := s.phases[t := Placed(id, p)],
            slots := s.slots[p := Maker(t)])
    case Insert(t) =>
      var Placed(id, p) := s.phases[t];
      s.(registry := Inserted(s.registry, id, p), phases := s.phases[t := Idle],
         ids := s.ids[id := Session(p)], slots := s.slots[p := Id(id)])
    case Remove(t, p) =>
      var id := s.infos[p];
      s.(registry := Removed(s.registry, id), phases := s.phases[t := Unlisted(p)],
         ids := s.ids - {id}, slots := s.slots[p := Freer(t)])
    case Deallocate(t) =>
      var p := s.phases[t].p;
      s.(chain := [p] + s.chain, phases := s.phases[t := Idle], slots := s.slots - {p})
    case Deactivate(id) => s.(registry := s.registry.(active := WithActive(s.registry.active, id, false)))
  }

  ghost predicate Runs(s: State, steps: seq<Step>, t: State)
    decreases |steps|
  {
    if steps == [] then t == s else Enabled(s, steps[0]) && Runs(Next(s, steps[0]), steps[1..], t)
  }

  // --------------------------------------------------------------------- invariants

  /** An id is on the stack or has a holder, never both; on the stack it is inactive and without an entry. */
  ghost predicate IdsSplit(r: Registry, ids: map<int, IdHolder>, n: nat) {
    && r.sessions.Keys == r.active.Keys == Ids(n) && r.capacity == n
    && Distinct(r.free)
    && ids.Keys <= Ids(n)
    && Elements(r.free) == Ids(n) - ids.Keys
    && (forall id | id in Ids(n) && id !in ids :: r.sessions[id] == NO_SESSION && !r.active[id])
    && (forall id | id in ids && !ids[id].Session? :: r.sessions[id] == NO_SESSION)
    && (forall id | id in ids && ids[id].Session? :: r.sessions[id] == ids[id].p)
  }

  /** A slot is on the free list or has a holder, never both. */
  ghost predicate SlotsSplit(blocks: set<nat>, chain: seq<nat>, slots: map<nat, SlotHolder>) {
    Distinct(chain) && Partition(blocks, chain, slots.Keys)
  }

  /** An id with a holder: its thread has it, or its session has the slot. */
  ghost predicate IdAgrees(s: State, id: int)
    requires id in s.ids
  {
    match s.ids[id]
    case Creator(t) => (PhaseOf(s, t).Chosen? || PhaseOf(s, t).Placed?) && PhaseOf(s, t).id == id
    case Session(p) => p in s.slots && s.slots[p] == Id(id)
    case Nobody => true
  }

  ghost predicate SlotAgrees(s: State, p: nat)
    requires p in s.slots
  {
    match s.slots[p]
    case Maker(t) => PhaseOf(s, t).Placed? && PhaseOf(s, t).p == p && p in s.infos && s.infos[p] == PhaseOf(s, t).id
    case Id(id) => id in s.ids && s.ids[id] == Session(p) && p in s.infos && s.infos[p] == id
    case Freer(t) => PhaseOf(s, t) == Unlisted(p)
  }

  ghost predicate PhaseAgrees(s: State, t: nat)
    requires t in s.phases
  {
    match s.phases[t]
    case Idle => true
    case Chosen(id) => id in s.ids && s.ids[id] == Creator(t)
    case Placed(id, p) => id in s.ids && s.ids[id] == Creator(t) && p in s.slots && s.slots[p] == Maker(t)
    case Unlisted(p) => p in s.slots && s.slots[p] == Freer(t)
  }

  /** What the threads and the sessions have is what the holders say. */
  ghost predicate Agree(s: State) {
    && (forall id | id in s.ids :: IdAgrees(s, id))
    && (forall p | p in s.slots :: SlotAgrees(s, p))
    && (forall t | t in s.phases :: PhaseAgrees(s, t))
  }

  ghost predicate Invariant(s: State, n: nat, blocks: set<nat>) {
    IdsSplit(s.registry, s.ids, n) && SlotsSplit(blocks, s.chain, s.slots) && Agree(s)
  }

  lemma {:induction false} InvariantInitially(n: nat, chain: seq<nat>, blocks: set<nat>)
    requires Distinct(chain) && (forall p :: p in chain <==> p in blocks)
    ensures Invariant(Start(n, chain), n, blocks)
  {
    InitialIds(n);
    hide IdsSplit, Initial;
    assert Start(n, chain).slots.Keys == {};
  }

  lemma {:induction false} InitialIds(n: nat)
    ensures IdsSplit(Initial(n, n), map[], n)
  {
    InitialFacts(n);
    hide Ids, Elements, Distinct;
  }

  lemma {:induction false} IdsByGenerate(r: Registry, ids: map<int, IdHolder>, n: nat, t: nat)
    requires IdsSplit(r, ids, n) && r.free != []
    ensures TopId(r) !in ids && IdsSplit(Generated(r), ids[TopId(r) := Creator(t)], n)
  {
    hide Ids, Elements, Distinct;
    var id, g := TopId(r), Generated(r);
    WithoutLast(r.free);
    assert id in Ids(n) && id !in ids;
    assert g == r.(free := g.free, active := r.active[id := true]);
    hide Generated, TopId;
    assert g.active.Keys == r.active.Keys && ids[id := Creator(t)].Keys == ids.Keys + {id};
  }

  lemma {:induction false} IdsByRemove(r: Registry, ids: map<int, IdHolder>, n: nat, id: int)
    requires IdsSplit(r, ids, n) && id in ids
    ensures CanRemove(r, id) && IdsSplit(Removed(r, id), ids - {id}, n)
  {
    FitsOnStack(r, ids, n, id);
    WithNew(r.free, id);
    var u, left := Removed(r, id), ids - {id};
    assert u == r.(active := r.active[id := false], free := r.free + [id], sessions := r.sessions[id := NO_SESSION]);
    hide Ids, Elements, Distinct, CanRemove, Removed, WithActive;
    assert left.Keys == ids.Keys - {id};
    assert Elements(u.free) == Ids(n) - left.Keys;
    assert u.sessions.Keys == r.sessions.Keys && u.active.Keys == r.active.Keys;
  }

  lemma {:induction false} FitsOnStack(r: Registry, ids: map<int, IdHolder>, n: nat, id: int)
    requires IdsSplit(r, ids, n) && id in ids
    ensures CanRemove(r, id) && Removed(r, id).free == r.free + [id] && id !in Elements(r.free)
  {
    hide Ids, Elements;
    RoomToPush(r.free, n, id);
  }

  lemma {:induction false} TopIsFree(r: Registry, ids: map<int, IdHolder>, n: nat)
    requires IdsSplit(r, ids, n) && r.free != []
    ensures TopId(r) !in ids
  {
    assert TopId(r) in r.free;
    assert TopId(r) in Elements(r.free);
  }

  lemma IdsKept(s: State, n: nat, step: Step)
    requires IdsSplit(s.registry, s.ids, n) && Agree(s) && Enabled(s, step)
    ensures IdsSplit(Next(s, step).registry, Next(s, step).ids, n)
    ensures step.Remove? ==> CanRemove(s.registry, s.infos[step.p])
  {
    hide Ids, Distinct, Elements;
    match step
    case Generate(t) =>
      hide IdsSplit;
      if s.registry.free != [] {
        IdsByGenerate(s.registry, s.ids, n, t);
      }
    case Remove(t, p) =>
      hide IdsSplit;
      IdsByRemove(s.registry, s.ids, n, s.infos[p]);
    case Allocate(t) =>
    case Insert(t) =>
    case Deallocate(t) =>
    case Deactivate(id) =>
  }

  lemma SlotsKept(s: State, blocks: set<nat>, step: Step)
    requires SlotsSplit(blocks, s.chain, s.slots) && Agree(s) && Enabled(s, step)
    ensures SlotsSplit(blocks, Next(s, step).chain, Next(s, step).slots)
  {
    match step
    case Allocate(t) =>
      if s.chain != [] {
        TakeFirst(blocks, s.chain, s.slots.Keys);
        assert Next(s, step).slots.Keys == s.slots.Keys + {s.chain[0]};
      }
    case Deallocate(t) =>
      GiveBack(blocks, s.chain, s.slots.Keys, s.phases[t].p);
      assert Next(s, step).slots.Keys == s.slots.Keys - {s.phases[t].p};
    case _ =>
      assert Next(s, step).slots.Keys == s.slots.Keys;
  }

  lemma {:induction false} AgreeByGenerate(s: State, t: nat)
    requires Agree(s) && Enabled(s, Generate(t))
    requires s.registry.free != [] ==> TopId(s.registry) !in s.ids
    ensures Agree(Next(s, Generate(t)))
  {
    hide Generated, TopId;
  }

  lemma {:induction false} AgreeByInsert(s: State, t: nat)
    requires Agree(s) && Enabled(s, Insert(t))
    ensures Agree(Next(s, Insert(t)))
  {
    hide Inserted;
  }

  lemma {:induction false} AgreeByAllocate(s: State, t: nat)
    requires Agree(s) && Enabled(s, Allocate(t))
    requires s.chain != [] ==> s.chain[0] !in s.slots
    ensures Agree(Next(s, Allocate(t)))
  {
    if s.chain == [] {
      AgreeByGivingUp(s, t);
    } else {
      AgreeByPlacing(s, t);
    }
    hide *;
  }

  lemma {:induction false} AgreeByGivingUp(s: State, t: nat)
    requires Agree(s) && Enabled(s, Allocate(t)) && s.chain == []
    ensures Agree(Next(s, Allocate(t)))
  {
  }

  lemma {:induction false} AgreeByPlacing(s: State, t: nat)
    requires Agree(s) && Enabled(s, Allocate(t)) && s.chain != [] && s.chain[0] !in s.slots
    ensures Agree(Next(s, Allocate(t)))
  {
  }

  lemma {:induction false} AgreeByRemove(s: State, step: Step)
    requires Agree(s) && Enabled(s, step) && step.Remove?
    ensures Agree(Next(s, step))
  {
    hide Removed;
  }

  lemma {:induction false} AgreeByDeallocate(s: State, t: nat)
    requires Agree(s) && Enabled(s, Deallocate(t))
    ensures Agree(Next(s, Deallocate(t)))
  {
  }

  lemma {:induction false} AgreeByDeactivate(s: State, id: int)
    requires Agree(s) && Enabled(s, Deactivate(id))
    ensures Agree(Next(s, Deactivate(id)))
  {
    hide WithActive;
  }

  lemma AgreeKept(s: State, n: nat, blocks: set<nat>, step: Step)
    requires Invariant(s, n, blocks) && Enabled(s, step)
    ensures Agree(Next(s, step))
  {
    hide Agree, Next, Enabled;
    if s.registry.free != [] {
      TopIsFree(s.registry, s.ids, n);
    }
    if s.chain != [] {
      assert s.chain[0] in s.chain;
    }
    if step.Generate? {
      AgreeByGenerate(s, step.t);
    } else if step.Insert? {
      AgreeByInsert(s, step.t);
    } else if step.Allocate? {
      AgreeByAllocate(s, step.t);
    } else if step.Remove? {
      AgreeByRemove(s, step);
    } else if step.Deallocate? {
      AgreeByDeallocate(s, step.t);
    } else {
      AgreeByDeactivate(s, step.id);
    }
  }

  lemma InvariantKept(s: State, n: nat, blocks: set<nat>, step: Step)
    requires Invariant(s, n, blocks) && Enabled(s, step)
    ensures Invariant(Next(s, step), n, blocks)
  {
    IdsKept(s, n, step);
    SlotsKept(s, blocks, step);
    AgreeKept(s, n, blocks, step);
  }

  lemma {:induction false} InvariantOfRun(s: State, n: nat, blocks: set<nat>, steps: seq<Step>, t: State)
    requires Invariant(s, n, blocks) && Runs(s, steps, t)
    ensures Invariant(t, n, blocks)
    decreases |steps|
  {
    hide Invariant, Enabled, Next;
    if steps != [] {
      InvariantKept(s, n, blocks, steps[0]);
      InvariantOfRun(Next(s, steps[0]), n, blocks, steps[1..], t);
    }
  }

  // -------------------------------------------------------------- identity of sessions

  ghost predicate Slab(n: nat, chain: seq<nat>, blocks: set<nat>) {
    Distinct(chain) && (forall p :: p in chain <==> p in blocks) && |blocks| == n
  }

  /** A session that CreateSession has returned and nobody has begun to destroy. */
  predicate InUse(s: State, p: nat) {
    p in s.slots && s.slots[p].Id? && p in s.infos
  }

  predicate HasId(s: State, t: nat) {
    PhaseOf(s, t).Chosen? || PhaseOf(s, t).Placed?
  }

  /**
   * In every run, with any number of threads: the stack holds no id twice; an id is on it exactly when no thread
   * and no session has it and it was not lost; ids on the stack are inactive and have no entry; every session in
   * use is the entry of its own id; and neither two sessions nor two threads ever have the same id or slot.
   */
  lemma IdPartition(n: nat, chain: seq<nat>, blocks: set<nat>, steps: seq<Step>, s: State)
    requires Slab(n, chain, blocks) && Runs(Start(n, chain), steps, s)
    ensures Distinct(s.registry.free)
    ensures forall id | id in s.registry.free ::
              id in Ids(n) && id in s.registry.sessions && s.registry.sessions[id] == NO_SESSION
              && id in s.registry.active && !s.registry.active[id]
    ensures forall id | id in Ids(n) ::
              (id in s.registry.free) != ((exists t :: HasId(s, t) && PhaseOf(s, t).id == id)
                                          || (exists p :: InUse(s, p) && s.infos[p] == id) || id in Lost(s))
    ensures forall p | InUse(s, p) :: s.infos[p] in s.registry.sessions && s.registry.sessions[s.infos[p]] == p
    ensures forall p, q | InUse(s, p) && InUse(s, q) && p != q :: s.infos[p] != s.infos[q]
    ensures forall p, t | InUse(s, p) && HasId(s, t) :: s.infos[p] != PhaseOf(s, t).id
    ensures forall t, u | HasId(s, t) && HasId(s, u) && t != u :: PhaseOf(s, t).id != PhaseOf(s, u).id
    ensures forall t, u | t != u && PhaseOf(s, t).Placed? && PhaseOf(s, u).Placed? :: PhaseOf(s, t).p != PhaseOf(s, u).p
  {
    SlotsTaken(n, chain, blocks);
    InvariantInitially(n, chain, blocks);
    InvariantOfRun(Start(n, chain), n, blocks, steps, s);
    hide *;
    PartsOfInvariant(s, n, blocks);
    FreeIdsAreOff(s, n);
    EveryIdOnce(s, n);
    SessionsAreApart(s, n);
    ThreadsAreApart(s);
  }

  lemma {:induction false} PartsOfInvariant(s: State, n: nat, blocks: set<nat>)
    requires Invariant(s, n, blocks)
    ensures IdsSplit(s.registry, s.ids, n) && Agree(s)
  {
  }

  lemma {:induction false} FreeIdsAreOff(s: State, n: nat)
    requires IdsSplit(s.registry, s.ids, n)
    ensures Distinct(s.registry.free)
    ensures forall id | id in s.registry.free ::
              id in Ids(n) && id in s.registry.sessions && s.registry.sessions[id] == NO_SESSION
              && id in s.registry.active && !s.registry.active[id]
  {
    hide Ids, Distinct;
    assert forall id | id in s.registry.free :: id in Elements(s.registry.free);
  }

  lemma EveryIdOnce(s: State, n: nat)
    requires IdsSplit(s.registry, s.ids, n) && Agree(s)
    ensures forall id | id in Ids(n) ::
              (id in s.registry.free) != ((exists t :: HasId(s, t) && PhaseOf(s, t).id == id)
                                          || (exists p :: InUse(s, p) && s.infos[p] == id) || id in Lost(s))
  {
    hide Ids;
    forall id | id in Ids(n)
      ensures (id in s.registry.free) != ((exists t :: HasId(s, t) && PhaseOf(s, t).id == id)
                                          || (exists p :: InUse(s, p) && s.infos[p] == id) || id in Lost(s))
    {
      HolderFacts(s, id);
      assert id in Elements(s.registry.free) <==> id !in s.ids;
      assert id in Elements(s.registry.free) <==> id in s.registry.free;
    }
  }

  lemma HolderFacts(s: State, id: int)
    requires Agree(s)
    ensures (id in s.ids) == ((exists t :: HasId(s, t) && PhaseOf(s, t).id == id)
                              || (exists p :: InUse(s, p) && s.infos[p] == id) || id in Lost(s))
  {
    if id in s.ids {
      match s.ids[id]
      case Creator(t) => assert HasId(s, t) && PhaseOf(s, t).id == id;
      case Session(p) => assert InUse(s, p) && s.infos[p] == id;
      case Nobody =>
    }
  }

  lemma SessionsAreApart(s: State, n: nat)
    requires IdsSplit(s.registry, s.ids, n) && Agree(s)
    ensures forall p | InUse(s, p) :: s.infos[p] in s.registry.sessions && s.registry.sessions[s.infos[p]] == p
    ensures forall p, q | InUse(s, p) && InUse(s, q) && p != q :: s.infos[p] != s.infos[q]
    ensures forall p, t | InUse(s, p) && HasId(s, t) :: s.infos[p] != PhaseOf(s, t).id
  {
    hide Ids;
    forall p | InUse(s, p)
      ensures s.infos[p] in s.ids && s.ids[s.infos[p]] == Session(p)
    {
    }
    forall t | HasId(s, t)
      ensures PhaseOf(s, t).id in s.ids && s.ids[PhaseOf(s, t).id] == Creator(t)
    {
    }
    hide Agree, InUse, HasId;
  }

  lemma ThreadsAreApart(s: State)
    requires Agree(s)
    ensures forall t, u | HasId(s, t) && HasId(s, u) && t != u :: PhaseOf(s, t).id != PhaseOf(s, u).id
    ensures forall t, u | t != u && PhaseOf(s, t).Placed? && PhaseOf(s, u).Placed? :: PhaseOf(s, t).p != PhaseOf(s, u).p
  {
    forall t | HasId(s, t)
      ensures PhaseOf(s, t).id in s.ids && s.ids[PhaseOf(s, t).id] == Creator(t)
      ensures PhaseOf(s, t).Placed? ==> PhaseOf(s, t).p in s.slots && s.slots[PhaseOf(s, t).p] == Maker(t)
    {
    }
    hide Agree;
  }

  // ------------------------------------------------------------------- active sessions

  /** The ids whose sessions have begun to close: those for which some Deactivate came after their creation. */
  ghost function Closing(s: State, steps: seq<Step>, closing: set<int>): set<int>
    decreases |steps|
  {
    if steps == [] || !Enabled(s, steps[0]) then closing
    else
      var t := Next(s, steps[0]);
      Closing(t, steps[1..], ClosingAfter(steps[0], t, closing))
  }

  /** An id that has been given back is no longer in it. */
  ghost function ClosingAfter(step: Step, after: State, closing: set<int>): set<int> {
    set id | id in closing + (if step.Deactivate? then {step.id} else {}) && id in after.ids
  }

  /** Every id that is not on the stack is active unless its session has begun to close. */
  ghost predicate Statuses(s: State, closing: set<int>) {
    && (forall id | id in closing :: id in s.ids && s.ids[id].Session?)
    && (forall id | id in s.ids :: id in s.registry.active && (s.registry.active[id] <==> id !in closing))
  }

  lemma {:induction false} GeneratedIsActive(s: State, n: nat, t: nat)
    requires IdsSplit(s.registry, s.ids, n) && Enabled(s, Generate(t)) && s.registry.free != []
    ensures var u := Next(s, Generate(t));
            var id := PhaseOf(u, t).id;
            && PhaseOf(u, t) == Chosen(id) && id !in s.ids && u.ids == s.ids[id := Creator(t)]
            && id in s.registry.active && u.registry.active == s.registry.active[id := true]
  {
    TopIsFree(s.registry, s.ids, n);
    hide Ids, Distinct;
    var id := TopId(s.registry);
    assert id in s.registry.free && id in Elements(s.registry.free) && id in s.registry.active.Keys;
  }

  lemma {:induction false} StatusesByCreate(s: State, n: nat, step: Step, closing: set<int>)
    requires IdsSplit(s.registry, s.ids, n) && Agree(s) && Enabled(s, step) && Statuses(s, closing)
    requires step.Generate? || step.Allocate? || step.Insert?
    ensures Statuses(Next(s, step), ClosingAfter(step, Next(s, step), closing))
  {
    HolderOfStep(s, step);
    if step.Generate? && s.registry.free != [] {
      GeneratedIsActive(s, n, step.t);
    }
    hide IdsSplit, Agree, TopId, Generated, PhaseOf;
  }

  lemma {:induction false} StatusesByDestroy(s: State, step: Step, closing: set<int>)
    requires Agree(s) && Enabled(s, step) && Statuses(s, closing)
    requires step.Remove? || step.Deallocate? || step.Deactivate?
    ensures Statuses(Next(s, step), ClosingAfter(step, Next(s, step), closing))
  {
    HolderOfStep(s, step);
    hide Agree, TopId, Generated, PhaseOf;
  }

  lemma {:induction false} StatusesKept(s: State, n: nat, step: Step, closing: set<int>)
    requires IdsSplit(s.registry, s.ids, n) && Agree(s) && Enabled(s, step) && Statuses(s, closing)
    ensures Statuses(Next(s, step), ClosingAfter(step, Next(s, step), closing))
  {
    hide *;
    if step.Generate? || step.Allocate? || step.Insert? {
      StatusesByCreate(s, n, step, closing);
    } else {
      StatusesByDestroy(s, step, closing);
    }
  }

  lemma {:induction false} StatusesOfRun(s: State, n: nat, blocks: set<nat>, steps: seq<Step>, t: State,
      closing: set<int>)
    requires Invariant(s, n, blocks) && Runs(s, steps, t) && Statuses(s, closing)
    ensures Statuses(t, Closing(s, steps, closing))
    decreases |steps|
  {
    hide Invariant, Enabled, Next, Statuses, ClosingAfter;
    if steps != [] {
      InvariantKept(s, n, blocks, steps[0]);
      PartsOfInvariant(s, n, blocks);
      StatusesKept(s, n, steps[0], closing);
      var u := Next(s, steps[0]);
      StatusesOfRun(u, n, blocks, steps[1..], t, ClosingAfter(steps[0], u, closing));
    }
  }

  /**
   * Over every run: an id is active from the moment CreateSession takes it, and a session in use is active exactly
   * if nobody has begun to close it since it was created.
   */
  lemma {:induction false} ActiveIff(n: nat, chain: seq<nat>, blocks: set<nat>, steps: seq<Step>, s: State)
    requires Slab(n, chain, blocks) && Runs(Start(n, chain), steps, s)
    ensures forall t | HasId(s, t) :: PhaseOf(s, t).id in s.registry.active && s.registry.active[PhaseOf(s, t).id]
    ensures forall p | InUse(s, p) ::
              s.infos[p] in s.registry.active
              && (s.registry.active[s.infos[p]] <==> s.infos[p] !in Closing(Start(n, chain), steps, {}))
  {
    hide *;
    SlotsTaken(n, chain, blocks);
    InvariantInitially(n, chain, blocks);
    NothingCloses(n, chain);
    InvariantOfRun(Start(n, chain), n, blocks, steps, s);
    StatusesOfRun(Start(n, chain), n, blocks, steps, s, {});
    PartsOfInvariant(s, n, blocks);
    StatusOfHolders(s, Closing(Start(n, chain), steps, {}));
  }

  lemma {:induction false} NothingCloses(n: nat, chain: seq<nat>)
    ensures Statuses(Start(n, chain), {})
  {
  }

  lemma {:induction false} StatusOfHolders(s: State, closing: set<int>)
    requires Agree(s) && Statuses(s, closing)
    ensures forall t | HasId(s, t) :: PhaseOf(s, t).id in s.registry.active && s.registry.active[PhaseOf(s, t).id]
    ensures forall p | InUse(s, p) ::
              s.infos[p] in s.registry.active && (s.registry.active[s.infos[p]] <==> s.infos[p] !in closing)
  {
    forall t | HasId(s, t)
      ensures PhaseOf(s, t).id in s.ids && s.ids[PhaseOf(s, t).id] == Creator(t)
    {
      assert PhaseAgrees(s, t);
    }
    forall p | InUse(s, p)
      ensures s.infos[p] in s.ids
    {
      assert SlotAgrees(s, p);
    }
    hide Agree;
  }

  /** Destroying a session in use always finds its entry and room for its id on the stack. */
  lemma RemovalSucceeds(n: nat, chain: seq<nat>, blocks: set<nat>, steps: seq<Step>, s: State, t: nat, p: nat)
    requires Slab(n, chain, blocks) && Runs(Start(n, chain), steps, s)
    requires Enabled(s, Remove(t, p))
    ensures CanRemove(s.registry, s.infos[p])
    ensures Removed(s.registry, s.infos[p]).free == s.registry.free + [s.infos[p]]
  {
    InvariantInitially(n, chain, blocks);
    InvariantOfRun(Start(n, chain), n, blocks, steps, s);
    IdsKept(s, n, Remove(t, p));
  }

  // --------------------------------------------------------------------- ids that get lost

  /** CreateSession gives up an id it has taken when the pool has no slot for it. */
  function Lost(s: State): set<int> {
    set id | id in s.ids && s.ids[id].Nobody?
  }

  /** Some create in the run came to an empty pool. */
  ghost predicate FoundNoSlot(s: State, steps: seq<Step>)
    decreases |steps|
  {
    && steps != [] && Enabled(s, steps[0])
    && ((steps[0].Allocate? && s.chain == []) || FoundNoSlot(Next(s, steps[0]), steps[1..]))
  }

  lemma LostByStep(s: State, n: nat, blocks: set<nat>, step: Step)
    requires Invariant(s, n, blocks) && Enabled(s, step)
    ensures Lost(Next(s, step)) == Lost(s) + if step.Allocate? && s.chain == [] then {s.phases[step.t].id} else {}
  {
    hide Ids, SlotsSplit;
    if step.Generate? && s.registry.free != [] {
      TopIsFree(s.registry, s.ids, n);
    }
    HolderOfStep(s, step);
    hide Agree, IdsSplit, TopId, Generated, Inserted, Removed, WithActive;
  }

  lemma {:induction false} HolderOfStep(s: State, step: Step)
    requires Agree(s) && Enabled(s, step)
    ensures step.Allocate? || step.Insert? ==> s.phases[step.t].id in s.ids && s.ids[s.phases[step.t].id].Creator?
    ensures step.Remove? ==> s.infos[step.p] in s.ids && s.ids[s.infos[step.p]].Session?
  {
  }

  lemma {:induction false} LostInRun(s: State, n: nat, blocks: set<nat>, steps: seq<Step>, t: State)
    requires Invariant(s, n, blocks) && Runs(s, steps, t)
    ensures Lost(s) <= Lost(t)
    ensures Lost(s) == {} ==> (Lost(t) == {} <==> !FoundNoSlot(s, steps))
    decreases |steps|
  {
    if steps != [] {
      InvariantKept(s, n, blocks, steps[0]);
      LostByStep(s, n, blocks, steps[0]);
      hide Invariant, Enabled, Next, Lost;
      LostInRun(Next(s, steps[0]), n, blocks, steps[1..], t);
    }
  }

  /** A lost id stays lost, and ids are lost exactly when a create comes to an empty pool. */
  lemma {:induction false} NothingLostIff(n: nat, chain: seq<nat>, blocks: set<nat>, first: seq<Step>, s: State,
      more: seq<Step>, t: State)
    requires Slab(n, chain, blocks)
    requires Runs(Start(n, chain), first, s) && Runs(s, more, t)
    ensures Lost(s) <= Lost(t)
    ensures Lost(s) == {} <==> !FoundNoSlot(Start(n, chain), first)
  {
    hide *;
    SlotsTaken(n, chain, blocks);
    InvariantInitially(n, chain, blocks);
    StartsComplete(n, chain);
    LostInRun(Start(n, chain), n, blocks, first, s);
    InvariantOfRun(Start(n, chain), n, blocks, first, s);
    LostInRun(s, n, blocks, more, t);
  }

  /**
   * A create comes to an empty pool only between the two halves of some DestroySession, which gives the id back
   * before the slot: one id is in hand, so all the slots can be taken only if one of them has lost its id.
   */
  lemma {:induction false} NoSlotNeedsHalfDestroyed(n: nat, chain: seq<nat>, blocks: set<nat>, steps: seq<Step>,
      s: State, t: nat)
    requires Slab(n, chain, blocks) && Runs(Start(n, chain), steps, s)
    requires Enabled(s, Allocate(t)) && s.chain == []
    ensures exists u :: PhaseOf(s, u).Unlisted?
  {
    hide *;
    SlotsTaken(n, chain, blocks);
    InvariantInitially(n, chain, blocks);
    InvariantOfRun(Start(n, chain), n, blocks, steps, s);
    AllSlotsHeld(s, n, blocks, t);
  }

  lemma {:induction false} StartsComplete(n: nat, chain: seq<nat>)
    ensures Lost(Start(n, chain)) == {}
  {
  }

  lemma {:induction false} SlotsTaken(n: nat, chain: seq<nat>, blocks: set<nat>)
    requires Slab(n, chain, blocks)
    ensures Distinct(chain) && (forall p :: p in chain <==> p in blocks) && |blocks| == n
  {
  }

  lemma AllSlotsHeld(s: State, n: nat, blocks: set<nat>, t: nat)
    requires Invariant(s, n, blocks) && |blocks| == n
    requires Enabled(s, Allocate(t)) && s.chain == []
    ensures exists u :: PhaseOf(s, u).Unlisted?
  {
    if forall u :: !PhaseOf(s, u).Unlisted? {
      var id := PhaseOf(s, t).id;
      assert s.slots.Keys == blocks;
      IdRange(n);
      OtherIds(s, n, id, t);
      InjectionSize(s.slots.Keys, s.infos, Ids(n) - {id});
      assert false;
    }
  }

  lemma OtherIds(s: State, n: nat, id: int, t: nat)
    requires IdsSplit(s.registry, s.ids, n) && Agree(s) && PhaseOf(s, t) == Chosen(id)
    requires forall u :: !PhaseOf(s, u).Unlisted?
    ensures id in Ids(n)
    ensures forall p | p in s.slots :: p in s.infos && s.infos[p] in Ids(n) && s.infos[p] != id
    ensures forall p, q | p in s.slots && q in s.slots && p != q :: s.infos[p] != s.infos[q]
  {
    hide Ids;
    forall p | p in s.slots
      ensures p in s.infos && s.infos[p] in s.ids && s.infos[p] != id
      ensures s.ids[s.infos[p]] == Session(p)
          || (s.ids[s.infos[p]].Creator? && PhaseOf(s, s.ids[s.infos[p]].t) == Placed(s.infos[p], p))
    {
    }
  }

  // ---------------------------------------------------- a run that loses an id for good

  lemma {:induction false} RunsAppend(s: State, first: seq<Step>, t: State, second: seq<Step>, u: State)
    requires Runs(s, first, t) && Runs(t, second, u)
    ensures Runs(s, first + second, u)
    decreases |first|
  {
    if first == [] {
      assert first + second == second;
    } else {
      assert (first + second)[1..] == first[1..] + second;
      RunsAppend(Next(s, first[0]), first[1..], t, second, u);
    }
  }

  lemma OneMore(s: State, first: seq<Step>, t: State, step: Step)
    requires Runs(s, first, t) && Enabled(t, step)
    ensures Runs(s, first + [step], Next(t, step))
  {
    assert Runs(t, [step], Next(t, step));
    RunsAppend(s, first, t, [step], Next(t, step));
  }

  /** Nothing is under way and nothing is lost; k ids and slots are free. */
  ghost predicate AtRest(s: State, k: nat) {
    && |s.registry.free| == |s.chain| == k
    && (forall t :: PhaseOf(s, t).Idle?)
    && (forall p | p in s.slots :: InUse(s, p))
  }

  lemma CreateOne(b: State, k: nat) returns (steps: seq<Step>, s: State)
    requires AtRest(b, k + 1)
    ensures Runs(b, steps, s) && AtRest(s, k)
  {
    var c := Next(b, Generate(0));
    assert c.phases[0].Chosen?;
    var d := Next(c, Allocate(0));
    assert d.phases[0].Placed?;
    s := Next(d, Insert(0));
    steps := [Generate(0), Allocate(0), Insert(0)];
    ThreeSteps(b, Generate(0), c, Allocate(0), d, Insert(0));
    hide Runs, TopId, WithActive;
    assert forall t :: t != 0 ==> PhaseOf(s, t) == PhaseOf(b, t);
  }

  lemma ThreeSteps(a: State, x: Step, b: State, y: Step, c: State, z: Step)
    requires Enabled(a, x) && b == Next(a, x) && Enabled(b, y) && c == Next(b, y) && Enabled(c, z)
    ensures Runs(a, [x, y, z], Next(c, z))
  {
    hide Enabled, Next;
    assert Runs(c, [z], Next(c, z));
    assert [y, z][1..] == [z] && [x, y, z][1..] == [y, z];
    assert Runs(b, [y, z], Next(c, z));
  }

  /** One thread creates n - k sessions. */
  lemma {:induction false} CreateMany(n: nat, chain: seq<nat>, k: nat) returns (steps: seq<Step>, s: State)
    requires k <= n == |chain|
    ensures Runs(Start(n, chain), steps, s) && AtRest(s, k)
    decreases n - k
  {
    if k == n {
      steps, s := [], Start(n, chain);
    } else {
      var before, b := CreateMany(n, chain, k + 1);
      var more;
      more, s := CreateOne(b, k);
      RunsAppend(Start(n, chain), before, b, more, s);
      steps := before + more;
    }
  }

  /**
   * Whatever the number of ids: with all sessions in use, one thread gives back an id, another takes it and finds
   * no slot, and the first gives back the slot. Nothing is under way any more and a slot is free, but that id is
   * lost: it is not on the stack, and by NothingLostIff it never comes back.
   */
  lemma SomeRunLosesAnId(n: nat, chain: seq<nat>, blocks: set<nat>) returns (steps: seq<Step>, s: State)
    requires n > 0 && |chain| == n && Slab(n, chain, blocks)
    ensures Runs(Start(n, chain), steps, s)
    ensures (forall t :: PhaseOf(s, t).Idle?) && s.chain != [] && s.registry.free == []
    ensures Lost(s) != {}
  {
    var before, b := CreateMany(n, chain, 0);
    InvariantInitially(n, chain, blocks);
    InvariantOfRun(Start(n, chain), n, blocks, before, b);
    assert chain[0] in blocks;
    assert chain[0] in b.slots;
    steps, s := LoseId(n, chain, blocks, before, b, chain[0]);
  }

  /** Thread 0 has given back the id, not yet the slot, and nothing else is under way. */
  ghost predicate HalfDestroyed(s: State, id: int, p: nat) {
    && s.registry.free == [id] && s.chain == []
    && (forall t :: t != 0 ==> PhaseOf(s, t).Idle?)
    && PhaseOf(s, 0) == Unlisted(p)
  }

  lemma CanHalfDestroy(b: State, n: nat, blocks: set<nat>, p: nat)
    requires AtRest(b, 0) && InUse(b, p) && Invariant(b, n, blocks)
    ensures p in b.infos
    ensures Enabled(b, Remove(0, p)) && HalfDestroyed(Next(b, Remove(0, p)), b.infos[p], p)
  {
    IdsKept(b, n, Remove(0, p));
    HalfDestroy(b, p);
  }

  lemma HalfDestroy(b: State, p: nat)
    requires AtRest(b, 0) && InUse(b, p) && CanRemove(b.registry, b.infos[p])
    ensures Enabled(b, Remove(0, p)) && HalfDestroyed(Next(b, Remove(0, p)), b.infos[p], p)
  {
    hide CanRemove, WithActive;
    var c := Next(b, Remove(0, p));
    assert c.registry.free == b.registry.free + [b.infos[p]];
    assert b.registry.free == [];
    assert forall t :: t != 0 ==> PhaseOf(c, t) == PhaseOf(b, t);
  }

  lemma LoseInBetween(c: State, id: int, p: nat) returns (s: State)
    requires HalfDestroyed(c, id, p)
    ensures Runs(c, [Generate(1), Allocate(1), Deallocate(0)], s)
    ensures (forall t :: PhaseOf(s, t).Idle?) && s.chain != [] && s.registry.free == [] && id in Lost(s)
  {
    hide WithActive;
    var d := Next(c, Generate(1));
    assert d.phases[1] == Chosen(id) && d.phases[0] == Unlisted(p);
    var e := Next(d, Allocate(1));
    s := Next(e, Deallocate(0));
    ThreeSteps(c, Generate(1), d, Allocate(1), e, Deallocate(0));
    assert forall t :: t != 0 && t != 1 ==> PhaseOf(s, t) == PhaseOf(c, t);
  }

  lemma LoseId(n: nat, chain: seq<nat>, blocks: set<nat>, before: seq<Step>, b: State, p: nat)
      returns (steps: seq<Step>, s: State)
    requires Runs(Start(n, chain), before, b) && AtRest(b, 0) && InUse(b, p) && Invariant(b, n, blocks)
    ensures Runs(Start(n, chain), steps, s)
    ensures (forall t :: PhaseOf(s, t).Idle?) && s.chain != [] && s.registry.free == []
    ensures Lost(s) != {}
  {
    hide Runs, Invariant, AtRest, InUse, HalfDestroyed, Next, Enabled, PhaseOf, Lost;
    CanHalfDestroy(b, n, blocks, p);
    var id, c := b.infos[p], Next(b, Remove(0, p));
    OneMore(Start(n, chain), before, b, Remove(0, p));
    s := LoseInBetween(c, id, p);
    steps := before + [Remove(0, p)] + [Generate(1), Allocate(1), Deallocate(0)];
    RunsAppend(Start(n, chain), before + [Remove(0, p)], c, [Generate(1), Allocate(1), Deallocate(0)], s);
  }
}
