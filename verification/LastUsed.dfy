/** API tokens' last-used times: collected in two swapped buffers per instance and
    merged into the table by guarded updates. */
module LastUsed {
  import opened Options

  type Times = map<int, int>

  /** auth_api_tokens: the tokens that exist, with their last-used time if any. */
  type Table = map<int, Option<int>>

  /** The guarded update; a missing token is the one reported failure. */
  function Merged(table: Table, id: int, at: int): Table {
    if id in table && (table[id].None? || table[id].value < at) then table[id := Some(at)] else table
  }

  function Noted(times: Times, id: int, at: int): Times {
    if id !in times || at > times[id] then times[id := at] else times
  }

  predicate AtMost(t: Option<int>, x: int) { t.Some? ==> t.value <= x }

  /** The entry of a buffer for one token. */
  function At(times: Times, id: int): Option<int> { if id in times then Some(times[id]) else None }

  function StoredAt(table: Table, id: int): Option<int> { if id in table then table[id] else None }

  // ---- One instance, as written ----

  class TokenLastUsedUpdater {
    var table: Table
    var active: Times
    var sleeper: Times

    constructor (table: Table)
      ensures this.table == table && active == map[] && sleeper == map[]
    {
      this.table, active, sleeper := table, map[], map[];
    }

    /** The noted time becomes the least bound of the old and the received one. */
    method Receive(id: int, at: int)
      modifies this`active
      ensures active == Noted(old(active), id, at)
      ensures forall x :: AtMost(At(active, id), x) <==> AtMost(At(old(active), id), x) && at <= x
      ensures forall k | k != id :: At(active, k) == At(old(active), k)
    {
      if id !in active || at > active[id] {
        active := active[id := at];
      }
    }

    /** The stored time becomes the least bound of the old and the new one, or the token
        does not exist. */
    method UpdateTokenLastUsed(id: int, at: int) returns (ok: bool)
      modifies this`table
      ensures table == Merged(old(table), id, at)
      ensures ok <==> id in table
      ensures ok ==> forall x :: AtMost(table[id], x) <==> AtMost(old(table)[id], x) && at <= x
      ensures table.Keys == old(table).Keys && forall k | k in table && k != id :: table[k] == old(table)[k]
    {
      if id in table && (table[id].None? || table[id].value < at) {
        table := table[id := Some(at)];
        return true;
      }
      return id in table;
    }

    /** A run without interference moves every collected time into the table: afterwards
        each token's stored time is the later of its stored and its collected time, the
        buffers are empty, and only tokens that do not exist failed. */
    method Run() returns (failed: set<int>)
      requires sleeper == map[]
      modifies this
      ensures active == map[] && sleeper == map[]
      ensures failed == old(active).Keys - table.Keys
      ensures table.Keys == old(table).Keys
      ensures forall id, x | id in table ::
                AtMost(table[id], x) <==> AtMost(old(table)[id], x) && AtMost(At(old(active), id), x)
    {
      active, sleeper := sleeper, active;
      failed := {};
      var left := sleeper.Keys;
      while left != {}
        invariant active == map[] && sleeper == old(active) && left <= sleeper.Keys
        invariant table.Keys == old(table).Keys
        invariant failed == sleeper.Keys - left - table.Keys
        invariant forall id, x | id in table ::
                    AtMost(table[id], x) <==> AtMost(old(table)[id], x) && (id in left || AtMost(At(sleeper, id), x))
        decreases left
      {
        assert (forall id :: id !in left) ==> left == {};
        var id :| id in left;
        var ok := UpdateTokenLastUsed(id, sleeper[id]);
        if !ok {
          failed := failed + {id};
        }
        left := left - {id};
      }
      sleeper := map[];
    }
  }

  // ---- Any number of instances, interleaved ----

  /** `left` holds the tokens of the sleeper buffer still to be written in this run. */
  datatype Instance = Instance(active: Times, sleeper: Times, running: bool, left: set<int>)

  /** `lost` holds the times whose write failed, `received` every time taken from the channel. */
  datatype State = State(table: Table, instances: map<nat, Instance>, lost: set<(int, int)>, received: seq<(int, int)>)

  datatype Action =
    | Start(n: nat)
    | Receive(n: nat, id: int, at: int)
    | Swap(n: nat)
    | Write(n: nat, id: int, fails: bool)
    | Clear(n: nat)

  function Put(s: State, n: nat, i: Instance): State { s.(instances := s.instances[n := i]) }

  function Step(s: State, a: Action): State {
    if a.Start? then
      if a.n in s.instances then s else Put(s, a.n, Instance(map[], map[], false, {}))
    else if a.n !in s.instances then s
    else
      var i := s.instances[a.n];
      match a
      case Start(_) => s
      case Receive(n, id, at) =>
        Put(s, n, i.(active := Noted(i.active, id, at))).(received := s.received + [(id, at)])
      case Swap(n) =>
        if i.running then s else Put(s, n, Instance(i.sleeper, i.active, true, i.active.Keys))
      case Write(n, id, fails) =>
        if id !in i.left || id !in i.sleeper then s
        else
          var done := Put(s, n, i.(left := i.left - {id}));
          if fails || id !in s.table then done.(lost := s.lost + {(id, i.sleeper[id])})
          else done.(table := Merged(s.table, id, i.sleeper[id]))
      case Clear(n) =>
        if i.running && i.left == {} then Put(s, n, i.(sleeper := map[], running := false)) else s
  }

  function Run(s: State, actions: seq<Action>): State
    decreases |actions|
  {
    if actions == [] then s else Run(Step(s, actions[0]), actions[1..])
  }

  function Init(table: Table): State { State(table, map[], {}, []) }

  /** No place where a time of this token can be holds one after x. */
  ghost predicate HeldAtMost(s: State, id: int, x: int) {
    && AtMost(StoredAt(s.table, id), x)
    && (forall n | n in s.instances :: AtMost(At(s.instances[n].active, id), x) && AtMost(At(s.instances[n].sleeper, id), x))
    && (forall w | w in s.lost && w.0 == id :: w.1 <= x)
  }

  /** Neither the initial table nor any received time of this token is after x. */
  ghost predicate ReceivedAtMost(table: Table, s: State, id: int, x: int) {
    && AtMost(StoredAt(table, id), x)
    && (forall r | r in s.received && r.0 == id :: r.1 <= x)
  }

  /** An entry of the sleeper buffer that was written is covered by the table or lost. */
  ghost predicate Flushed(s: State, i: Instance) {
    && (!i.running ==> i.sleeper == map[])
    && (forall id | id in i.sleeper && id !in i.left ::
          || (id in s.table && s.table[id].Some? && i.sleeper[id] <= s.table[id].value)
          || (id, i.sleeper[id]) in s.lost)
  }

  ghost predicate Inv(table: Table, s: State) {
    && (forall n | n in s.instances :: Flushed(s, s.instances[n]))
    && (forall id, x :: HeldAtMost(s, id, x) <==> ReceivedAtMost(table, s, id, x))
  }

  lemma StepKeepsFlushed(s: State, a: Action)
    requires forall n | n in s.instances :: Flushed(s, s.instances[n])
    ensures var t := Step(s, a); forall n | n in t.instances :: Flushed(t, t.instances[n])
  {
    var t := Step(s, a);
    forall n | n in t.instances ensures Flushed(t, t.instances[n]) {
      if n in s.instances {
        assert Flushed(s, s.instances[n]);
      }
    }
  }

  lemma ReceiveBounds(s: State, n: nat, id: int, at: int, k: int, x: int)
    requires n in s.instances
    ensures HeldAtMost(Step(s, Receive(n, id, at)), k, x) <==> HeldAtMost(s, k, x) && (k == id ==> at <= x)
  {
    var t := Step(s, Receive(n, id, at));
    assert forall m | m in s.instances :: m in t.instances && t.instances[m].sleeper == s.instances[m].sleeper;
    assert forall m | m in s.instances && m != n :: t.instances[m] == s.instances[m];
    assert AtMost(At(t.instances[n].active, k), x)
           <==> AtMost(At(s.instances[n].active, k), x) && (k == id ==> at <= x);
  }

  lemma WriteBounds(s: State, n: nat, id: int, fails: bool, k: int, x: int)
    requires n in s.instances && Flushed(s, s.instances[n])
    ensures HeldAtMost(Step(s, Write(n, id, fails)), k, x) <==> HeldAtMost(s, k, x)
  {
    var t := Step(s, Write(n, id, fails));
    assert forall m | m in s.instances && m != n :: t.instances[m] == s.instances[m];
    assert n in t.instances;
  }

  /** A write only copies a held time into the table, and a clear only drops copies. */
  lemma OtherBounds(s: State, a: Action, k: int, x: int)
    requires (forall n | n in s.instances :: Flushed(s, s.instances[n])) && !a.Receive?
    ensures HeldAtMost(Step(s, a), k, x) <==> HeldAtMost(s, k, x)
  {
    var t := Step(s, a);
    if a.Write? && a.n in s.instances {
      WriteBounds(s, a.n, a.id, a.fails, k, x);
    } else if a.n in s.instances {
      assert Flushed(s, s.instances[a.n]);
      assert forall m | m in s.instances && m != a.n :: t.instances[m] == s.instances[m];
      assert a.n in t.instances;
    } else {
      assert forall m | m in s.instances :: m in t.instances && t.instances[m] == s.instances[m];
    }
  }

  lemma StepKeepsInv(table: Table, s: State, a: Action)
    requires Inv(table, s)
    ensures Inv(table, Step(s, a))
  {
    var t := Step(s, a);
    StepKeepsFlushed(s, a);
    forall id, x ensures HeldAtMost(t, id, x) <==> ReceivedAtMost(table, t, id, x) {
      if a.Receive? && a.n in s.instances {
        ReceiveBounds(s, a.n, a.id, a.at, id, x);
      } else if !a.Receive? {
        OtherBounds(s, a, id, x);
      }
      assert HeldAtMost(s, id, x) <==> ReceivedAtMost(table, s, id, x);
    }
  }

  lemma {:induction false} RunKeepsInv(table: Table, s: State, actions: seq<Action>)
    requires Inv(table, s)
    ensures Inv(table, Run(s, actions))
    decreases |actions|
  {
    if actions != [] {
      StepKeepsInv(table, s, actions[0]);
      RunKeepsInv(table, Step(s, actions[0]), actions[1..]);
    }
  }

  /** In every interleaving of every number of instances, the latest time held anywhere
      for a token - table, buffers, or a failed write - is the latest of its initial time
      and all times received: both have the same upper bounds. */
  lemma MergeIsJoin(table: Table, actions: seq<Action>, id: int, x: int)
    ensures var s := Run(Init(table), actions);
            HeldAtMost(s, id, x) <==> ReceivedAtMost(table, s, id, x)
  {
    RunKeepsInv(table, Init(table), actions);
  }

  /** Once no buffer holds a token and none of its writes failed, its stored time is
      exactly that maximum. */
  lemma FlushedIsLatest(table: Table, actions: seq<Action>, id: int, x: int)
    requires var s := Run(Init(table), actions);
             && (forall n | n in s.instances :: id !in s.instances[n].active && id !in s.instances[n].sleeper)
             && (forall w | w in s.lost :: w.0 != id)
    ensures var s := Run(Init(table), actions);
            AtMost(StoredAt(s.table, id), x) <==> ReceivedAtMost(table, s, id, x)
  {
    MergeIsJoin(table, actions, id, x);
  }

  ghost predicate NotEarlier(a: Table, b: Table) {
    forall id | id in a :: id in b && (a[id].Some? ==> b[id].Some? && a[id].value <= b[id].value)
  }

  /** A stored time never decreases, however instances' writes are ordered. */
  lemma {:induction false} StoredNeverDecreases(s: State, actions: seq<Action>)
    ensures NotEarlier(s.table, Run(s, actions).table)
    decreases |actions|
  {
    if actions != [] {
      StoredNeverDecreases(Step(s, actions[0]), actions[1..]);
      assert NotEarlier(s.table, Step(s, actions[0]).table);
    }
  }

  // ---- A complete flush ----

  function Writes(n: nat, ids: seq<int>): seq<Action>
    decreases |ids|
  {
    if ids == [] then [] else [Write(n, ids[0], false)] + Writes(n, ids[1..])
  }

  ghost predicate Lists(ids: seq<int>, keys: set<int>) {
    (forall id :: id in ids <==> id in keys) && forall i, j | 0 <= i < j < |ids| :: ids[i] != ids[j]
  }

  /** The table holds the later of what it held and what the buffer holds. */
  ghost predicate Absorbed(table: Table, times: Times, after: Table) {
    && after.Keys == table.Keys
    && forall id, x | id in table :: AtMost(after[id], x) <==> AtMost(table[id], x) && AtMost(At(times, id), x)
  }

  lemma OneWrite(s: State, n: nat, id: int)
    requires n in s.instances && id in s.instances[n].left && id in s.instances[n].sleeper && id in s.table
    ensures var i, t := s.instances[n], Step(s, Write(n, id, false));
            && t.instances == s.instances[n := i.(left := i.left - {id})]
            && t.lost == s.lost && t.table == Merged(s.table, id, i.sleeper[id])
  {
  }

  lemma {:induction false} WritesAbsorb(s: State, n: nat, ids: seq<int>)
    requires n in s.instances && Lists(ids, s.instances[n].left)
    requires s.instances[n].left <= s.instances[n].sleeper.Keys && s.instances[n].left <= s.table.Keys
    ensures var i, t := s.instances[n], Run(s, Writes(n, ids));
            && t.instances == s.instances[n := i.(left := {})] && t.lost == s.lost
            && Absorbed(s.table, map id | id in i.left :: i.sleeper[id], t.table)
    decreases |ids|
  {
    var i := s.instances[n];
    if ids == [] {
      assert (forall id :: id !in ids) && ((forall id :: id !in i.left) ==> i.left == {});
    } else {
      var id, u := ids[0], Step(s, Write(n, ids[0], false));
      assert id in i.left;
      OneWrite(s, n, id);
      ListsRest(ids, i.left);
      assert Writes(n, ids)[1..] == Writes(n, ids[1..]);
      WritesAbsorb(u, n, ids[1..]);
      AbsorbedFirst(s.table, i.sleeper, i.left, id, Run(u, Writes(n, ids[1..])).table);
    }
  }

  lemma AbsorbedFirst(table: Table, times: Times, left: set<int>, id: int, after: Table)
    requires id in left && left <= times.Keys && left <= table.Keys
    requires Absorbed(Merged(table, id, times[id]), map k | k in left - {id} :: times[k], after)
    ensures Absorbed(table, map k | k in left :: times[k], after)
  {
  }

  lemma ListsRest(ids: seq<int>, keys: set<int>)
    requires Lists(ids, keys) && ids != []
    ensures Lists(ids[1..], keys - {ids[0]})
  {
    assert ids == [ids[0]] + ids[1..];
    assert forall i | 0 <= i < |ids| - 1 :: ids[1..][i] == ids[i + 1];
  }

  /** A run of an instance that swaps its buffers, writes every token it collected and
      clears, in whatever order of tokens, moves all collected times into the table. */
  lemma FlushMovesAll(s: State, n: nat, ids: seq<int>)
    requires n in s.instances && !s.instances[n].running && s.instances[n].sleeper == map[]
    requires Lists(ids, s.instances[n].active.Keys) && s.instances[n].active.Keys <= s.table.Keys
    ensures var t := Step(Run(Step(s, Swap(n)), Writes(n, ids)), Clear(n));
            && t.instances == s.instances[n := Instance(map[], map[], false, {})] && t.lost == s.lost
            && Absorbed(s.table, s.instances[n].active, t.table)
  {
    var active := s.instances[n].active;
    var u := Step(s, Swap(n));
    assert u.instances == s.instances[n := Instance(map[], active, true, active.Keys)];
    WritesAbsorb(u, n, ids);
    assert (map id | id in active.Keys :: active[id]) == active;
  }

  /** While a run is under way the buffers are not swapped again. */
  lemma RunningKeepsBuffers(s: State, n: nat)
    requires n in s.instances && s.instances[n].running
    ensures Step(s, Swap(n)) == s
  {
  }
}
