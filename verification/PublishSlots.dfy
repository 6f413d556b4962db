/** The two primitives the runner waits on: a FIFO counting semaphore and a per-key promise-chain mutex. */
module PublishSlots {
  import opened Options

  /**
   * The semaphore: `active` sections running or handed a slot, and callers queued for one.
   * `arrivals` and `grants` record who asked and who was served, in order.
   */
  datatype Sem = Sem(limit: nat, active: nat, waiting: seq<nat>, arrivals: seq<nat>, grants: seq<nat>)

  /** A caller enters at once while a slot is free and queues otherwise. */
  function Enter(s: Sem, id: nat): Sem {
    if s.active >= s.limit then s.(waiting := s.waiting + [id], arrivals := s.arrivals + [id])
    else s.(active := s.active + 1, arrivals := s.arrivals + [id], grants := s.grants + [id])
  }

  /** A leaver hands its slot to the first in the queue, or gives it back. */
  function Leave(s: Sem): Sem {
    if s.waiting != [] then s.(waiting := s.waiting[1..], grants := s.grants + [s.waiting[0]])
    else s.(active := if s.active > 0 then s.active - 1 else 0)
  }

  /** Never over the limit, a queue only when full, and served exactly in order of arrival. */
  ghost predicate SemOk(s: Sem) {
    && s.limit >= 1
    && s.active <= s.limit
    && (s.waiting != [] ==> s.active == s.limit)
    && s.arrivals == s.grants + s.waiting
  }

  lemma {:induction false} EnterKeepsOk(s: Sem, id: nat)
    requires SemOk(s)
    ensures SemOk(Enter(s, id))
  {
    if s.active >= s.limit {
      assert s.grants + (s.waiting + [id]) == (s.grants + s.waiting) + [id];
    } else {
      assert s.waiting == [];
    }
  }

  lemma {:induction false} LeaveKeepsOk(s: Sem)
    requires SemOk(s) && s.active > 0
    ensures SemOk(Leave(s))
  {
    if s.waiting != [] {
      assert s.waiting == [s.waiting[0]] + s.waiting[1..];
      assert (s.grants + [s.waiting[0]]) + s.waiting[1..] == s.grants + s.waiting;
    }
  }

  class Semaphore {
    const limit: nat
    var active: nat
    var waiting: seq<nat>
    ghost var arrivals: seq<nat>
    ghost var grants: seq<nat>

    constructor (limit: nat)
      ensures View() == Sem(limit, 0, [], [], [])
    {
      this.limit := limit;
      active, waiting := 0, [];
      arrivals, grants := [], [];
    }

    ghost function View(): Sem
      reads this
    {
      Sem(limit, active, waiting, arrivals, grants)
    }

    method Acquire(id: nat) returns (entered: bool)
      modifies this
      ensures View() == Enter(old(View()), id) && entered == (old(active) < limit)
    {
      arrivals := arrivals + [id];
      if active >= limit {
        waiting := waiting + [id];
        return false;
      }
      active := active + 1;
      grants := grants + [id];
      return true;
    }

    method Release() returns (next: Option<nat>)
      requires active > 0
      modifies this
      ensures View() == Leave(old(View()))
      ensures next == if old(waiting) == [] then None else Some(old(waiting)[0])
    {
      if waiting != [] {
        next := Some(waiting[0]);
        grants := grants + [waiting[0]];
        waiting := waiting[1..];
      } else {
        next := None;
        active := active - 1;
      }
    }
  }

  /**
   * The keyed mutex: every caller replaces the key's tail by its own promise and waits for the tail it found.
   * `released` are the resolved promises; `lines` records the arrival order per key.
   */
  datatype Locks = Locks(
    tails: map<string, nat>,
    previous: map<nat, Option<nat>>,
    released: set<nat>,
    lines: map<string, seq<nat>>)

  const NO_LOCKS := Locks(map[], map[], {}, map[])

  function Line(l: Locks, key: string): seq<nat> {
    if key in l.lines then l.lines[key] else []
  }

  function Request(l: Locks, key: string, id: nat): Locks {
    Locks(
      l.tails[key := id],
      l.previous[id := if key in l.tails then Some(l.tails[key]) else None],
      l.released,
      l.lines[key := Line(l, key) + [id]])
  }

  /** `await previous` goes through. */
  predicate Ready(l: Locks, id: nat) {
    id in l.previous && (l.previous[id].None? || l.previous[id].value in l.released)
  }

  function Unlock(l: Locks, id: nat): Locks {
    l.(released := l.released + {id})
  }

  /** One key's chain: linked in arrival order, no repeats, released from the front. */
  ghost predicate LineOk(l: Locks, key: string) {
    var q := Line(l, key);
    && (key in l.tails <==> q != [])
    && (q != [] ==> l.tails[key] == q[|q| - 1])
    && (forall i :: 0 <= i < |q| ==> q[i] in l.previous)
    && (q != [] ==> l.previous[q[0]] == None)
    && (forall i :: 0 < i < |q| ==> l.previous[q[i]] == Some(q[i - 1]))
    && (forall i, j :: 0 <= i < j < |q| ==> q[i] != q[j])
    && (forall i, j :: 0 <= i < j < |q| && q[j] in l.released ==> q[i] in l.released)
  }

  /** Whoever may enter the section is the first of its line that has not left it. */
  lemma {:induction false} ReadyIsFirst(l: Locks, key: string, i: nat)
    requires LineOk(l, key) && i < |Line(l, key)| && Line(l, key)[i] !in l.released
    ensures Ready(l, Line(l, key)[i]) <==> forall m :: 0 <= m < i ==> Line(l, key)[m] in l.released
  {
    var q := Line(l, key);
    if i > 0 {
      assert l.previous[q[i]] == Some(q[i - 1]);
      assert q[i - 1] in l.released ==> forall m :: 0 <= m < i - 1 ==> q[m] in l.released;
    }
  }

  /** So at most one caller per key is inside. */
  lemma {:induction false} OneInside(l: Locks, key: string, a: nat, b: nat)
    requires LineOk(l, key) && a in Line(l, key) && b in Line(l, key)
    requires Ready(l, a) && Ready(l, b) && a !in l.released && b !in l.released
    ensures a == b
  {
    var i :| 0 <= i < |Line(l, key)| && Line(l, key)[i] == a;
    var j :| 0 <= j < |Line(l, key)| && Line(l, key)[j] == b;
    ReadyIsFirst(l, key, i);
    ReadyIsFirst(l, key, j);
  }

  /** A line that is not finished has someone who may enter. */
  lemma {:induction false} SomeoneReady(l: Locks, key: string, i: nat) returns (first: nat)
    requires LineOk(l, key) && i < |Line(l, key)| && Line(l, key)[i] !in l.released
    ensures first in Line(l, key) && first !in l.released && Ready(l, first)
  {
    if i == 0 || Line(l, key)[i - 1] in l.released {
      first := Line(l, key)[i];
    } else {
      first := SomeoneReady(l, key, i - 1);
    }
  }

  lemma {:induction false} RequestKeepsLine(l: Locks, key: string, id: nat, k: string)
    requires LineOk(l, key) && LineOk(l, k) && id !in l.previous && id !in l.released
    ensures LineOk(Request(l, key, id), k)
  {
    var q := Line(l, k);
    assert id !in q by {
      assert forall i :: 0 <= i < |q| ==> q[i] in l.previous;
    }
  }

  lemma {:induction false} UnlockKeepsLine(l: Locks, id: nat, key: string)
    requires LineOk(l, key) && Ready(l, id)
    ensures LineOk(Unlock(l, id), key)
  {
    var q := Line(l, key);
    if j :| 0 < j < |q| && q[j] == id {
      assert q[j - 1] in l.released;
    }
  }

  class KeyedMutex {
    var tails: map<string, nat>
    var previous: map<nat, Option<nat>>
    var released: set<nat>
    ghost var lines: map<string, seq<nat>>

    constructor ()
      ensures View() == NO_LOCKS
    {
      tails, previous, released := map[], map[], {};
      lines := map[];
    }

    ghost function View(): Locks
      reads this
    {
      Locks(tails, previous, released, lines)
    }

    method Join(key: string, id: nat)
      modifies this
      ensures View() == Request(old(View()), key, id)
    {
      lines := lines[key := Line(View(), key) + [id]];
      previous := previous[id := if key in tails then Some(tails[key]) else None];
      tails := tails[key := id];
    }

    predicate MayEnter(id: nat)
      reads this
      ensures MayEnter(id) <==> Ready(View(), id)
    {
      id in previous && (previous[id].None? || previous[id].value in released)
    }

    method Release(id: nat)
      modifies this
      ensures View() == Unlock(old(View()), id)
    {
      released := released + {id};
    }
  }
}
