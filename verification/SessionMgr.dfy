// The session manager together with the pool its sessions live in, called by one thread at a time.
module SessionMgrs {
  import opened Containers
  import opened FreeLists
  import opened Registries
  import opened Sequences
  import opened UniSizeAllocators

  /** An id has an entry exactly when it is not on the stack, and an id on the stack is inactive. */
  ghost predicate Tidy(r: Registry, n: nat) {
    && r.sessions.Keys == r.active.Keys == Ids(n) && r.capacity == n
    && Distinct(r.free)
    && Elements(r.free) <= Ids(n)
    && (forall id | id in Elements(r.free) :: r.sessions[id] == NO_SESSION && !r.active[id])
    && (forall id | id in Ids(n) && id !in Elements(r.free) :: r.sessions[id] >= 0)
  }

  /** The held slots are exactly the entries, and every session carries its own id. */
  ghost predicate Backed(sessions: map<int, int>, held: set<nat>, mem: seq<Cell<SessionInfo>>) {
    && (forall id | id in sessions && sessions[id] != NO_SESSION ::
          0 <= sessions[id] < |mem| && sessions[id] in held && mem[sessions[id]].Client?
              && mem[sessions[id]].value.id == id)
    && (forall p | p in held ::
          p < |mem| && mem[p].Client? && mem[p].value.id in sessions && sessions[mem[p].value.id] == p)
  }

  function Live(r: Registry): set<int> {
    set id | id in r.sessions && r.sessions[id] != NO_SESSION
  }

  lemma {:induction false} LiveCount(r: Registry, n: nat)
    requires Tidy(r, n)
    ensures |r.free| + |Live(r)| == n
    ensures r.free == [] <==> Live(r) == Ids(n)
  {
    DistinctSize(r.free);
    IdRange(n);
    hide Ids, Elements;
    forall id
      ensures id in Live(r) <==> id in Ids(n) && id !in Elements(r.free)
    {
      assert id in r.sessions <==> id in r.sessions.Keys;
    }
    assert Ids(n) == Elements(r.free) + Live(r);
    SubsetSize(Live(r), Ids(n));
  }

  lemma HeldCount(r: Registry, held: set<nat>, mem: seq<Cell<SessionInfo>>)
    requires Backed(r.sessions, held, mem)
    ensures |held| <= |Live(r)|
  {
    InjectionSize(held, map p | p in held :: mem[p].value.id, Live(r));
  }

  /** A free id always comes with a free slot. */
  lemma SlotForId(r: Registry, n: nat, slots: set<nat>, held: set<nat>, mem: seq<Cell<SessionInfo>>)
    requires Tidy(r, n) && Backed(r.sessions, held, mem)
    requires |slots| == n
    ensures TopId(r) == 0 <==> r.free == []
    ensures TopId(r) == 0 <==> Live(r) == Ids(n)
    ensures TopId(r) != 0 ==> held != slots && TopId(r) in r.sessions
  {
    LiveCount(r, n);
    HeldCount(r, held, mem);
    IdRange(n);
    if r.free != [] {
      WithoutLast(r.free);
    }
  }

  lemma {:induction false} TidyInitially(n: nat)
    ensures Tidy(Initial(n, n), n)
  {
    InitialFacts(n);
    hide Ids, Elements, Distinct;
  }

  lemma {:induction false} InitialNone(capacity: nat)
    ensures Initial(0, capacity) == Registry(map[], map[], [], capacity)
  {
  }

  lemma {:induction false} NothingHeld(n: nat, mem: seq<Cell<SessionInfo>>)
    ensures Backed(Initial(n, n).sessions, {}, mem)
  {
    InitialFacts(n);
    hide Ids;
    assert forall id | id in Initial(n, n).sessions :: id in Initial(n, n).sessions.Keys;
  }

  lemma BackedAfterCreate(r: Registry, n: nat, held: set<nat>, mem: seq<Cell<SessionInfo>>, p: nat, info: SessionInfo)
    requires Tidy(r, n) && Backed(r.sessions, held, mem)
    requires r.free != [] && info.id == TopId(r)
    requires p !in held && p < |mem|
    ensures Backed(Inserted(Generated(r), info.id, p).sessions, held + {p}, mem[p := Client(info)])
  {
    hide Ids;
    assert info.id in r.free;
    var t := Inserted(Generated(r), info.id, p).sessions;
    assert t == r.sessions[info.id := p];
    forall q | q in held
      ensures mem[q].value.id != info.id
    {
      assert q >= 0;
    }
  }

  lemma BackedAfterRemove(r: Registry, n: nat, held: set<nat>, mem: seq<Cell<SessionInfo>>, p: nat,
      mem': seq<Cell<SessionInfo>>)
    requires Tidy(r, n) && Backed(r.sessions, held, mem)
    requires p in held && |mem'| == |mem| && forall a: nat | a < |mem| && a != p :: mem'[a] == mem[a]
    ensures mem[p].value.id in Live(r)
    ensures CanRemove(r, mem[p].value.id) ==> Backed(Removed(r, mem[p].value.id).sessions, held - {p}, mem')
  {
  }

  lemma {:induction false} TidyAfterGenerate(r: Registry, n: nat, p: nat)
    requires Tidy(r, n) && r.free != []
    ensures TopId(r) in Ids(n) && TopId(r) in r.active
    ensures Tidy(Inserted(Generated(r), TopId(r), p), n)
  {
    hide Ids, Elements, Distinct;
    var id, t := TopId(r), Inserted(Generated(r), TopId(r), p);
    WithoutLast(r.free);
    assert id in r.sessions.Keys;
    assert t == r.(free := t.free, active := r.active[id := true], sessions := r.sessions[id := p]);
    hide TopId, Generated, Inserted, WithActive;
    assert t.sessions.Keys == r.sessions.Keys && t.active.Keys == r.active.Keys;
  }

  lemma {:induction false} TidyAfterRemove(r: Registry, n: nat, id: int)
    requires Tidy(r, n) && id in Live(r)
    ensures CanRemove(r, id) && Tidy(Removed(r, id), n)
  {
    hide Ids, Elements, Distinct;
    assert id in r.sessions.Keys && id !in Elements(r.free);
    RoomToPush(r.free, n, id);
    WithNew(r.free, id);
    var t := Removed(r, id);
    assert t == r.(free := r.free + [id], active := r.active[id := false], sessions := r.sessions[id := NO_SESSION]);
    hide Removed, CanRemove, WithActive, Live;
    assert t.sessions.Keys == r.sessions.Keys && t.active.Keys == r.active.Keys;
  }

  /** The entry of the id, its status and the session itself are as they were. */
  ghost predicate SameEntry(r: Registry, mem: seq<Cell<SessionInfo>>, t: Registry, m: seq<Cell<SessionInfo>>, id: int) {
    && id in r.sessions && id in t.sessions && t.sessions[id] == r.sessions[id]
    && id in r.active && id in t.active && t.active[id] == r.active[id]
    && (0 <= t.sessions[id] < |m| ==> t.sessions[id] < |mem| && m[t.sessions[id]] == mem[t.sessions[id]])
  }

  /** How far DestroyAllSessions has come: entries below n are gone, the others are as they were. */
  ghost predicate Swept(r: Registry, mem: seq<Cell<SessionInfo>>, t: Registry, m: seq<Cell<SessionInfo>>, n: nat) {
    && (forall id | id in t.sessions && id < FIRST_ID + n :: t.sessions[id] == NO_SESSION)
    && (forall id | id in t.sessions && id >= FIRST_ID + n :: SameEntry(r, mem, t, m, id))
  }

  lemma SweepOne(r: Registry, mem: seq<Cell<SessionInfo>>, t: Registry, m: seq<Cell<SessionInfo>>, n: nat,
                 m': seq<Cell<SessionInfo>>, held: set<nat>)
    requires FIRST_ID + n in t.sessions && t.sessions[FIRST_ID + n] != NO_SESSION
    requires Swept(r, mem, t, m, n) && Backed(t.sessions, held, m) && CanRemove(t, FIRST_ID + n)
    requires |m'| == |m| && forall a: nat | a < |m| && a != t.sessions[FIRST_ID + n] :: m'[a] == m[a]
    ensures Swept(r, mem, Removed(t, FIRST_ID + n), m', n + 1)
  {
    var id, u := FIRST_ID + n, Removed(t, FIRST_ID + n);
    forall x | x in u.sessions && x > id
      ensures SameEntry(r, mem, u, m', x)
    {
      assert SameEntry(r, mem, t, m, x);
      assert t.sessions[x] != NO_SESSION ==> t.sessions[x] != t.sessions[id];
    }
  }

  lemma SweepNone(r: Registry, mem: seq<Cell<SessionInfo>>, t: Registry, m: seq<Cell<SessionInfo>>, n: nat)
    requires FIRST_ID + n in t.sessions && t.sessions[FIRST_ID + n] == NO_SESSION
    requires Swept(r, mem, t, m, n)
    ensures Swept(r, mem, t, m, n + 1)
  {
    hide SameEntry;
  }

  /** The sockets of the sessions that are live and active, in the order of the ids. */
  function ActiveSockets(r: Registry, mem: seq<Cell<SessionInfo>>, n: nat): seq<int> {
    if n == 0 then []
    else
      var id := FIRST_ID + n - 1;
      ActiveSockets(r, mem, n - 1)
      + if id in r.sessions && 0 <= r.sessions[id] < |mem| && mem[r.sessions[id]].Client? && id in r.active
          && r.active[id]
        then [mem[r.sessions[id]].value.sock] else []
  }

  lemma EntryFacts(r: Registry, mem: seq<Cell<SessionInfo>>, t: Registry, m: seq<Cell<SessionInfo>>, n: nat,
      amount: nat, held: set<nat>)
    requires n < amount && Tidy(t, amount) && Backed(t.sessions, held, m) && |mem| == |m|
    requires Swept(r, mem, t, m, n)
    ensures FIRST_ID + n in t.sessions && FIRST_ID + n in t.active
    ensures var id := FIRST_ID + n;
            var p := t.sessions[id];
            && (p != NO_SESSION ==> 0 <= p < |m| && p in held && m[p].Client? && m[p].value.id == id)
            && ActiveSockets(r, mem, n + 1)
               == ActiveSockets(r, mem, n) + if p != NO_SESSION && t.active[id] then [m[p].value.sock] else []
  {
    IdRange(amount);
  }

  lemma StartSweep(r: Registry, m: seq<Cell<SessionInfo>>, amount: nat, held: set<nat>)
    requires Tidy(r, amount) && Backed(r.sessions, held, m)
    ensures Swept(r, m, r, m, 0) && ActiveSockets(r, m, 0) == []
  {
    IdRange(amount);
  }

  lemma AllSwept(r: Registry, mem: seq<Cell<SessionInfo>>, t: Registry, m: seq<Cell<SessionInfo>>, amount: nat,
      held: set<nat>)
    requires Tidy(t, amount) && Backed(t.sessions, held, m)
    requires Swept(r, mem, t, m, amount)
    ensures Live(t) == {} && held == {} && |t.free| == amount
  {
    IdRange(amount);
    forall id | id in t.sessions
      ensures t.sessions[id] == NO_SESSION
    {
      assert id in t.sessions.Keys;
    }
    assert Live(t) == {};
    LiveCount(t, amount);
    HeldCount(t, held, m);
  }

  /** One socket for each live and active session, in ascending order of the ids. */
  ghost predicate ClosedInOrder(sessions: map<int, int>, active: map<int, bool>, mem: seq<Cell<SessionInfo>>,
                                ids: seq<int>, closed: seq<int>) {
    && |ids| == |closed|
    && (forall i, j | 0 <= i < j < |ids| :: ids[i] < ids[j])
    && (forall id :: id in ids <==> id in sessions && sessions[id] != NO_SESSION && id in active && active[id])
    && (forall i | 0 <= i < |ids| && ids[i] in sessions ::
          0 <= sessions[ids[i]] < |mem| && mem[sessions[ids[i]]].Client?
              && mem[sessions[ids[i]]].value.sock == closed[i])
  }

  lemma {:induction false} ActiveInOrder(r: Registry, mem: seq<Cell<SessionInfo>>, n: nat) returns (ids: seq<int>)
    requires forall id | id in r.sessions && r.sessions[id] != NO_SESSION ::
               0 <= r.sessions[id] < |mem| && mem[r.sessions[id]].Client?
    ensures var closed := ActiveSockets(r, mem, n);
            && |ids| == |closed|
            && (forall i, j | 0 <= i < j < |ids| :: ids[i] < ids[j])
            && (forall id ::
                  id in ids <==>
                  FIRST_ID <= id < FIRST_ID + n && id in r.sessions && r.sessions[id] != NO_SESSION
                  && id in r.active && r.active[id])
            && (forall i | 0 <= i < |ids| && ids[i] in r.sessions ::
                  0 <= r.sessions[ids[i]] < |mem| && mem[r.sessions[ids[i]]].Client?
                      && mem[r.sessions[ids[i]]].value.sock == closed[i])
  {
    if n == 0 {
      ids := [];
    } else {
      var before := ActiveInOrder(r, mem, n - 1);
      var id := FIRST_ID + n - 1;
      var on := id in r.sessions && r.sessions[id] != NO_SESSION && id in r.active && r.active[id];
      ids := before + if on then [id] else [];
      assert forall i | 0 <= i < |before| :: before[i] in before && before[i] < id;
    }
  }

  lemma {:induction false} AllActiveInOrder(r: Registry, mem: seq<Cell<SessionInfo>>, n: nat, held: set<nat>)
      returns (ids: seq<int>)
    requires Tidy(r, n) && Backed(r.sessions, held, mem)
    ensures ClosedInOrder(r.sessions, r.active, mem, ids, ActiveSockets(r, mem, n))
  {
    ids := ActiveInOrder(r, mem, n);
    IdRange(n);
    hide ActiveSockets, Ids, Elements, Distinct;
    assert forall id :: id in r.sessions <==> id in r.sessions.Keys;
  }

  class SessionMgr {
    const amount: nat
    const freeIds: Stack<int>
    const pool: UniSizeAllocator<SessionInfo>
    var sessions: map<int, int>
    var active: map<int, bool>

    ghost function Repr(): set<object> {
      {this} + freeIds.Repr() + pool.Repr()
    }

    ghost predicate Separate() {
      this !in freeIds.Repr() && this !in pool.Repr() && freeIds.Repr() !! pool.Repr()
    }

    ghost predicate Parts()
      reads Repr()
    {
      && Separate()
      && freeIds.Valid() && pool.Valid()
      && freeIds.list.Length == amount
    }

    ghost function State(): Registry
      requires Parts()
      reads Repr()
    {
      Registry(sessions, active, freeIds.Contents(), amount)
    }

    ghost predicate Valid()
      reads Repr()
    {
      && Parts()
      && |pool.slots| == amount
      && Tidy(State(), amount)
      && Backed(sessions, pool.held, pool.mem[..])
    }

    constructor (size: nat, amount: nat)
      requires size > 0 && amount > 0
      ensures Valid() && fresh(Repr())
      ensures this.amount == amount
      ensures State() == Initial(amount, amount) && pool.held == {}
      ensures |freeIds.Contents()| == amount && forall i | 0 <= i < amount :: freeIds.Contents()[i] == 1000 + i
      ensures forall id :: id in sessions <==> 1000 <= id < 1000 + amount
      ensures forall id :: id in active <==> 1000 <= id < 1000 + amount
      ensures (forall id | id in sessions :: sessions[id] == NO_SESSION) && forall id | id in active :: !active[id]
    {
      hide AscendBy, SpacedOut, SlotSet, Addresses, Partition, Linked;
      hide Tidy, Backed, Initial, Ids, Elements, Distinct;
      this.amount := amount;
      freeIds := new Stack<int>(amount);
      pool := new UniSizeAllocator<SessionInfo>(size, amount);
      sessions, active := map[], map[];
      new;
      InitialNone(amount);
      FillStack();
      FirstIdIs1000(amount);
    }

    /** What the constructor does once the members are there. */
    method FillStack()
      requires Parts() && State() == Initial(0, amount) && |pool.slots| == amount && pool.held == {}
      modifies this`sessions, this`active, freeIds.Repr()
      ensures Valid() && State() == Initial(amount, amount)
    {
      hide Tidy, Backed, Initial, UniSizeAllocator.Valid, Stack.Valid, Stack.Contents;
      PushIds();
      TidyInitially(amount);
      NothingHeld(amount, pool.mem[..]);
    }

    /** The constructor's loop. */
    method PushIds()
      requires Parts() && State() == Initial(0, amount)
      modifies this`sessions, this`active, freeIds.Repr()
      ensures Parts() && State() == Initial(amount, amount)
    {
      for i := 0 to amount
        invariant Parts() && State() == Initial(i, amount)
      {
        AddId(i);
      }
    }

    /** One round of the constructor's loop. */
    method AddId(i: nat)
      requires Parts() && i < amount && State() == Initial(i, amount)
      modifies this`sessions, this`active, freeIds.Repr()
      ensures Parts() && State() == Initial(i + 1, amount)
    {
      hide Initial;
      InitialOneMore(i, amount);
      var ok := freeIds.Push(i + FIRST_ID);
      sessions := sessions[i + FIRST_ID := NO_SESSION];
      active := active[i + FIRST_ID := false];
    }

    method SetSessionActiveImpl(id: int, status: bool)
      modifies this`active
      ensures active == WithActive(old(active), id, status)
      ensures active.Keys == old(active.Keys) && (id in active ==> active[id] == status)
      ensures forall other | other in active && other != id :: active[other] == old(active)[other]
    {
      if id in active {
        active := active[id := status];
      }
    }

    method GenerateSessionID() returns (id: int)
      requires Parts()
      modifies this`active, freeIds.Repr()
      ensures Parts() && pool.held == old(pool.held) && pool.mem[..] == old(pool.mem[..])
      ensures id == TopId(old(State()))
      ensures State() == Generated(old(State()))
      ensures old(freeIds.Contents()) == [] ==> id == 0 && freeIds.Contents() == [] && active == old(active)
      ensures old(freeIds.Contents()) != [] ==> freeIds.Contents() + [id] == old(freeIds.Contents())
      ensures old(freeIds.Contents()) != [] ==> active.Keys == old(active.Keys) && (id in active ==> active[id])
      ensures forall other | other in active && other != id :: active[other] == old(active)[other]
    {
      var top := freeIds.Top();
      if top == None {
        return 0;
      }
      SetSessionActiveImpl(top.value, true);
      var ok := freeIds.Pop();
      return top.value;
    }

    method InsertSession(p: nat) returns (ok: bool)
      requires Parts()
      requires p < pool.mem.Length && pool.mem[p].Client?
      modifies this`sessions
      ensures Parts()
      ensures ok == (pool.mem[p].value.id in old(sessions))
      ensures State() == Inserted(old(State()), pool.mem[p].value.id, p)
      ensures ok ==> sessions == old(sessions)[pool.mem[p].value.id := p]
      ensures !ok ==> sessions == old(sessions)
    {
      var id := pool.mem[p].value.id;
      if id in sessions {
        sessions := sessions[id := p];
        return true;
      }
      return false;
    }

    method RemoveSession(id: int) returns (ok: bool)
      requires Parts()
      modifies this, freeIds.Repr()
      ensures Parts() && pool.held == old(pool.held) && pool.mem[..] == old(pool.mem[..])
      ensures ok == CanRemove(old(State()), id)
      ensures State() == Removed(old(State()), id)
      ensures ok ==> freeIds.Contents() == old(freeIds.Contents()) + [id] && sessions == old(sessions)[id := NO_SESSION]
      ensures !ok ==> freeIds.Contents() == old(freeIds.Contents()) && sessions == old(sessions)
      ensures active.Keys == old(active.Keys) && (id in active ==> !active[id])
      ensures forall other | other in active && other != id :: active[other] == old(active)[other]
    {
      SetSessionActiveImpl(id, false);
      if id in sessions {
        ok := freeIds.Push(id);
        if !ok {
          return false;
        }
        sessions := sessions[id := NO_SESSION];
        return true;
      }
      return false;
    }

    /** AllocateSession of the session pool. */
    method AllocateSession(info: SessionInfo) returns (p: int)
      requires Parts()
      modifies pool.Repr()
      ensures Parts() && State() == old(State())
      ensures p == NULL <==> old(pool.held) == pool.slots
      ensures p == NULL ==>
                pool.held == old(pool.held) && pool.chain == old(pool.chain) && pool.mem[..] == old(pool.mem[..])
      ensures p != NULL ==> 0 <= p && p !in old(pool.held) && pool.held == old(pool.held) + {p} && p < pool.mem.Length
      ensures p != NULL ==>
                pool.mem[..] == old(pool.mem[..])[p := Client(info)] {
      p := pool.Allocate();
      if p != NULL {
        pool.Write(p, info);
      }
    }

    /** DeallocateSession of the session pool. */
    method DeallocateSession(p: nat)
      requires Parts() && p in pool.held
      modifies pool.Repr()
      ensures Parts() && State() == old(State())
      ensures pool.held == old(pool.held) - {p} && pool.chain == [p] + old(pool.chain)
      ensures p < pool.mem.Length && forall a: nat | a < pool.mem.Length && a != p :: pool.mem[a] == old(pool.mem[a])
    {
      pool.Deallocate(p);
    }

    /**
     * Fails exactly when every id belongs to a live session, and then changes nothing. Otherwise the new session
     * carries the id from the top of the stack, and nothing else changes.
     */
    method CreateSession(sock: int, ip: string, port: int) returns (p: int)
      requires Valid()
      modifies Repr()
      ensures Valid()
      ensures p == NULL <==> old(Live(State())) == Ids(amount)
      ensures p == NULL ==> State() == old(State()) && pool.held == old(pool.held) && pool.mem[..] == old(pool.mem[..])
      ensures p != NULL ==> 0 <= p < pool.mem.Length && p !in old(pool.held) && pool.held == old(pool.held) + {p}
      ensures p != NULL ==> State() == Inserted(Generated(old(State())), TopId(old(State())), p)
      ensures p != NULL ==>
                pool.mem[..] == old(pool.mem[..])[p := Client(SessionInfo(TopId(old(State())), sock, ip, port))]
      ensures p != NULL ==>
                var id := pool.mem[p].value.id;
                && freeIds.Contents() + [id] == old(freeIds.Contents()) && sessions == old(sessions)[id := p]
                && id in active && active == old(active)[id := true]
    {
      hide Tidy, Backed, TopId, Live, Parts, Inserted;
      ghost var r, m, held := State(), pool.mem[..], pool.held;
      SlotForId(r, amount, pool.slots, held, m);
      var id := GenerateSessionID();
      if id == 0 {
        return NULL;
      }
      var info := SessionInfo(id, sock, ip, port);
      p := AllocateSession(info);
      if p == NULL {
        assert false;
        return;
      }
      BackedAfterCreate(r, amount, held, m, p, info);
      TidyAfterGenerate(r, amount, p);
      var ok := InsertSession(p);
      if !ok {
        assert false;
        return NULL;
      }
    }

    /** Removing a live session never fails; its id goes on top of the stack and its slot to the front of the list. */
    method DestroySession(p: nat)
      requires Valid() && p in pool.held
      modifies Repr()
      ensures Valid()
      ensures p < pool.mem.Length && old(pool.mem[p]).Client?
      ensures CanRemove(old(State()), old(pool.mem[p]).value.id)
      ensures State() == Removed(old(State()), old(pool.mem[p]).value.id)
      ensures var id := old(pool.mem[p]).value.id;
              && freeIds.Contents() == old(freeIds.Contents()) + [id] && sessions == old(sessions)[id := NO_SESSION]
              && active == old(active)[id := false]
      ensures pool.held == old(pool.held) - {p}
      ensures forall a: nat | a < pool.mem.Length && a != p :: pool.mem[a] == old(pool.mem[a])
    {
      ghost var r, m, held := State(), pool.mem[..], pool.held;
      assert pool.mem[p].Client?;
      hide Tidy, Backed, Live, CanRemove, Removed, Parts, Separate, Repr;
      var id := pool.mem[p].value.id;
      BackedAfterRemove(r, amount, held, m, p, m);
      TidyAfterRemove(r, amount, id);
      var ok := RemoveSession(id);
      DeallocateSession(p);
      BackedAfterRemove(r, amount, held, m, p, pool.mem[..]);
    }

    method SessionActive(id: int) returns (status: bool)
      ensures status == (id in active && active[id])
    {
      return id in active && active[id];
    }

    /** The session with this id, or NULL exactly if there is none. */
    method GetSession(id: int) returns (p: int)
      requires Valid()
      ensures p == NULL <==> id !in Live(State())
      ensures p != NULL ==> p in pool.held && p < pool.mem.Length && pool.mem[p].Client? && pool.mem[p].value.id == id
    {
      return if id in sessions then sessions[id] else NULL;
    }

    /** Clearing the status, as the sessions do, or setting that of a live session, keeps the manager in order. */
    method SetSessionActive(id: int, status: bool)
      requires Parts()
      modifies this`active
      ensures Parts()
      ensures State() == old(State()).(active := WithActive(old(active), id, status))
      ensures id in old(active) ==> active == old(active)[id := status]
      ensures id !in old(active) ==> active == old(active)
      ensures old(Valid()) && (status ==> id in Live(State())) ==> Valid()
    {
      SetSessionActiveImpl(id, status);
    }

    /** One round of the loop of DestroyAllSessions, which started at r and m. */
    method DestroyEntry(ghost r: Registry, ghost m: seq<Cell<SessionInfo>>, n: nat, sofar: seq<int>)
        returns (closed: seq<int>)
      requires Valid() && n < amount && |m| == pool.mem.Length
      requires Swept(r, m, State(), pool.mem[..], n)
      requires sofar == ActiveSockets(r, m, n)
      modifies Repr()
      ensures Valid()
      ensures Swept(r, m, State(), pool.mem[..], n + 1)
      ensures closed == ActiveSockets(r, m, n + 1)
    {
      hide Tidy, Backed, Live, CanRemove, Removed, Swept, Ids, ActiveSockets, Parts, Separate;
      ghost var t, m1, held := State(), pool.mem[..], pool.held;
      EntryFacts(r, m, t, m1, n, amount, held);
      closed := sofar;
      var p := sessions[n + FIRST_ID];
      if p != NO_SESSION {
        var info := pool.mem[p].value;
        var status := SessionActive(info.id);
        if status {
          closed := closed + [info.sock];
        }
        DestroySession(p);
        SweepOne(r, m, t, m1, n, pool.mem[..], held);
      } else {
        SweepNone(r, m, t, m1, n);
      }
    }

    /** Leaves no session, every id free and inactive and every slot free; closes the sockets of the active sessions. */
    method DestroyAllSessions() returns (closed: seq<int>, ghost ids: seq<int>)
      requires Valid()
      modifies Repr()
      ensures Valid()
      ensures pool.held == {} && Live(State()) == {} && |State().free| == amount
      ensures ClosedInOrder(old(sessions), old(active), old(pool.mem[..]), ids, closed)
    {
      ghost var r, m := State(), pool.mem[..];
      ids := AllActiveInOrder(r, m, amount, pool.held);
      closed := [];
      StartSweep(r, m, amount, pool.held);
      for n := 0 to amount
        invariant Valid() && |m| == pool.mem.Length
        invariant Swept(r, m, State(), pool.mem[..], n)
        invariant closed == ActiveSockets(r, m, n)
      {
        hide Valid, Swept, ActiveSockets, ClosedInOrder;
        closed := DestroyEntry(r, m, n, closed);
      }
      AllSwept(r, m, State(), pool.mem[..], amount, pool.held);
    }
  }
}
