// What the session manager keeps: the entry and the active status of every id, and the stack of free ids.
module Registries {
  import opened Sequences

  const NO_SESSION := -1

  const FIRST_ID := 1000

  datatype Registry = Registry(
    sessions: map<int, int>,    // id to session, as the address of its slot
    active: map<int, bool>,
    free: seq<int>,             // bottom first
    capacity: nat)

  datatype SessionInfo = SessionInfo(id: int, sock: int, ip: string, port: int)

  function Ids(n: nat): set<int> {
    if n == 0 then {} else Ids(n - 1) + {FIRST_ID + n - 1}
  }

  lemma {:induction false} IdRange(n: nat)
    ensures forall id :: id in Ids(n) <==> FIRST_ID <= id < FIRST_ID + n
    ensures |Ids(n)| == n
  {
    if n > 0 {
      IdRange(n - 1);
    }
  }

  /** As the constructor leaves it: every id is free, the highest on top. */
  function Initial(n: nat, capacity: nat): Registry {
    Registry(map id | id in Ids(n) :: NO_SESSION, map id | id in Ids(n) :: false, seq(n, i => FIRST_ID + i), capacity)
  }

  lemma InitialOneMore(n: nat, capacity: nat)
    ensures |Initial(n, capacity).free| == n
    ensures var r := Initial(n, capacity);
            r.(sessions := r.sessions[FIRST_ID + n := NO_SESSION], active := r.active[FIRST_ID + n := false],
                free := r.free + [FIRST_ID + n])
            == Initial(n + 1, capacity)
  {
  }

  function WithActive(active: map<int, bool>, id: int, status: bool): map<int, bool> {
    if id in active then active[id := status] else active
  }

  // The critical sections of the manager's lock.

  /** 0 is nobody's id. */
  function TopId(r: Registry): int {
    if r.free == [] then 0 else r.free[|r.free| - 1]
  }

  function Generated(r: Registry): Registry {
    if r.free == [] then r
    else r.(active := WithActive(r.active, TopId(r), true), free := r.free[..|r.free| - 1])
  }

  function Inserted(r: Registry, id: int, p: int): Registry {
    if id in r.sessions then r.(sessions := r.sessions[id := p]) else r
  }

  predicate CanRemove(r: Registry, id: int) {
    id in r.sessions && |r.free| < r.capacity
  }

  /** The status is cleared even when the removal is refused. */
  function Removed(r: Registry, id: int): Registry {
    var off := r.(active := WithActive(r.active, id, false));
    if CanRemove(r, id) then off.(free := r.free + [id], sessions := r.sessions[id := NO_SESSION]) else off
  }

  lemma {:induction false} InitialStack(n: nat)
    ensures Elements(Initial(n, n).free) == Ids(n)
  {
    var free := Initial(n, n).free;
    IdRange(n);
    forall id | id in Ids(n)
      ensures id in free
    {
      assert free[id - FIRST_ID] == id;
    }
  }

  lemma {:induction false} InitialFacts(n: nat)
    ensures var r := Initial(n, n);
            r.sessions.Keys == r.active.Keys == Ids(n) && Distinct(r.free) && Elements(r.free) == Ids(n)
    ensures forall id | id in Ids(n) :: Initial(n, n).sessions[id] == NO_SESSION && !Initial(n, n).active[id]
  {
    InitialStack(n);
    hide Ids, Elements;
    assert Initial(n, n).sessions.Keys == Ids(n) && Initial(n, n).active.Keys == Ids(n);
  }

  /** The ids count up from 1000. */
  lemma {:induction false} FirstIdIs1000(n: nat)
    ensures var r := Initial(n, n);
            && |r.free| == n && (forall i | 0 <= i < n :: r.free[i] == 1000 + i)
            && (forall id :: id in r.sessions <==> 1000 <= id < 1000 + n)
            && (forall id :: id in r.active <==> 1000 <= id < 1000 + n)
            && (forall id | id in r.sessions :: r.sessions[id] == NO_SESSION)
            && (forall id | id in r.active :: !r.active[id])
  {
    IdRange(n);
    InitialFacts(n);
    hide Ids, Elements;
    var r := Initial(n, n);
    assert forall id :: (id in r.sessions <==> id in Ids(n)) && (id in r.active <==> id in Ids(n));
  }

  // ----------------------------------------------------------------------- counting

  /** A stack of different ids with one id of the range missing has room for it. */
  lemma {:induction false} RoomToPush(s: seq<int>, n: nat, missing: int)
    requires Distinct(s) && Elements(s) <= Ids(n)
    requires missing in Ids(n) && missing !in Elements(s)
    ensures |s| < n
  {
    DistinctSize(s);
    IdRange(n);
    hide Ids, Elements;
    SubsetSize(Elements(s), Ids(n) - {missing});
  }
}
