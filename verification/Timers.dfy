/** The shard's timer queue (`src/event_loop.rs`). Time is in nanoseconds. */
module Timers {

  datatype TimerKind = Keepalive | PeerstoreFlush | Gc | LookupTick | Punch

  datatype Timer = Timer(at: nat, kind: TimerKind)

  /** Position in the declaration of `TimerKind`, which its derived order follows. */
  function Rank(k: TimerKind): nat
  {
    match k
    case Keepalive => 0
    case PeerstoreFlush => 1
    case Gc => 2
    case LookupTick => 3
    case Punch => 4
  }

  /** `a` is not after `b` in the order in which the heap gives timers up: earlier first, and of
      two timers for the same instant the later-declared kind first. */
  predicate FiresFirst(a: Timer, b: Timer)
  {
    a.at < b.at || (a.at == b.at && Rank(a.kind) >= Rank(b.kind))
  }

  ghost predicate IsTop(t: Timer, heap: multiset<Timer>)
  {
    t in heap && forall u :: u in heap ==> FiresFirst(t, u)
  }

  lemma {:induction false} TopExists(heap: multiset<Timer>)
    requires heap != multiset{}
    ensures exists t :: IsTop(t, heap)
    decreases |heap|
  {
    var u :| u in heap;
    var rest := heap - multiset{u};
    if rest == multiset{} {
      forall v | v in heap ensures v == u {
        assert v == u || v in rest;
      }
      assert IsTop(u, heap);
    } else {
      TopExists(rest);
      var t :| IsTop(t, rest);
      forall v | v in heap ensures v == u || v in rest {
      }
      var top := if FiresFirst(t, u) then t else u;
      assert IsTop(top, heap);
    }
  }

  lemma TopIsUnique(s: Timer, t: Timer, heap: multiset<Timer>)
    requires IsTop(s, heap) && IsTop(t, heap)
    ensures s == t
  {
  }

  /** `BinaryHeap::peek`. */
  ghost function Top(heap: multiset<Timer>): (t: Timer)
    requires heap != multiset{}
    ensures IsTop(t, heap)
  {
    TopExists(heap);
    var t :| IsTop(t, heap);
    t
  }

  /** The timers due at `now`, in firing order. */
  ghost function Due(heap: multiset<Timer>, now: nat): seq<Timer>
    decreases |heap|
  {
    if heap == multiset{} || Top(heap).at > now then []
    else [Top(heap)] + Due(heap - multiset{Top(heap)}, now)
  }

  /** What `pop_due` leaves behind. */
  ghost function Later(heap: multiset<Timer>, now: nat): multiset<Timer>
    decreases |heap|
  {
    if heap == multiset{} || Top(heap).at > now then heap else Later(heap - multiset{Top(heap)}, now)
  }

  function Kinds(ts: seq<Timer>): (ks: seq<TimerKind>)
    ensures |ks| == |ts| && forall i :: 0 <= i < |ts| ==> ks[i] == ts[i].kind
  {
    seq(|ts|, i requires 0 <= i < |ts| => ts[i].kind)
  }

  ghost predicate InFiringOrder(ts: seq<Timer>)
  {
    forall i, j :: 0 <= i < j < |ts| ==> FiresFirst(ts[i], ts[j])
  }

  lemma {:induction false} DueConserves(heap: multiset<Timer>, now: nat)
    ensures multiset(Due(heap, now)) + Later(heap, now) == heap
    decreases |heap|
  {
    if heap != multiset{} && Top(heap).at <= now {
      var t := Top(heap);
      var rest := heap - multiset{t};
      DueConserves(rest, now);
      assert multiset([t] + Due(rest, now)) == multiset{t} + multiset(Due(rest, now));
      assert heap == multiset{t} + rest;
    }
  }

  lemma {:induction false} DueSplits(heap: multiset<Timer>, now: nat)
    ensures forall t :: t in Due(heap, now) ==> t.at <= now
    ensures forall t :: t in Later(heap, now) ==> t.at > now
    decreases |heap|
  {
    if heap != multiset{} && Top(heap).at <= now {
      DueSplits(heap - multiset{Top(heap)}, now);
    }
  }

  lemma {:induction false} DueInOrder(heap: multiset<Timer>, now: nat)
    ensures InFiringOrder(Due(heap, now))
    decreases |heap|
  {
    if heap != multiset{} && Top(heap).at <= now {
      var t := Top(heap);
      var rest := heap - multiset{t};
      DueInOrder(rest, now);
      DueConserves(rest, now);
      var due := Due(rest, now);
      forall u | u in due ensures FiresFirst(t, u) {
        assert u in multiset(due) + Later(rest, now);
        assert u in heap;
      }
      assert InFiringOrder([t] + due);
    }
  }

  /** Popping loses and invents nothing, takes exactly the timers that are due, and yields them in
      nondecreasing time. */
  lemma DueIsExact(heap: multiset<Timer>, now: nat)
    ensures multiset(Due(heap, now)) + Later(heap, now) == heap
    ensures forall t :: t in Due(heap, now) ==> t.at <= now
    ensures forall t :: t in Later(heap, now) ==> t.at > now
    ensures InFiringOrder(Due(heap, now))
  {
    DueConserves(heap, now);
    DueSplits(heap, now);
    DueInOrder(heap, now);
  }

  /** The timer at the top of the heap. */
  method Peek(heap: multiset<Timer>) returns (t: Timer)
    requires heap != multiset{}
    ensures t == Top(heap) && t in heap
  {
    TopExists(heap);
    t :| t in heap && forall u :: u in heap ==> FiresFirst(t, u);
    TopIsUnique(t, Top(heap), heap);
  }

  lemma Regrouped(a: seq<Timer>, t: Timer, b: seq<Timer>)
    ensures a + ([t] + b) == (a + [t]) + b
    ensures Kinds(a + [t]) == Kinds(a) + [t.kind]
  {
  }

  class TimingWheel {
    var heap: multiset<Timer>

    constructor ()
      ensures heap == multiset{}
    {
      heap := multiset{};
    }

    method Schedule(at: nat, kind: TimerKind)
      modifies this
      ensures heap == old(heap) + multiset{Timer(at, kind)}
    {
      heap := heap + multiset{Timer(at, kind)};
    }

    method PopDue(now: nat) returns (out: seq<TimerKind>)
      modifies this
      ensures out == Kinds(Due(old(heap), now))
      ensures heap == Later(old(heap), now)
    {
      ghost var start := heap;
      ghost var popped: seq<Timer> := [];
      out := [];
      while heap != multiset{}
        invariant popped + Due(heap, now) == Due(start, now)
        invariant Later(heap, now) == Later(start, now)
        invariant out == Kinds(popped)
        decreases |heap|
      {
        var t := Peek(heap);
        if t.at > now {
          break;
        }
        Regrouped(popped, t, Due(heap - multiset{t}, now));
        out := out + [t.kind];
        heap := heap - multiset{t};
        popped := popped + [t];
      }
      assert popped + [] == popped;
    }

    /** How long the loop may sleep: up to the earliest timer and no longer. */
    method NextTimeout(now: nat) returns (wait: nat, scheduled: bool)
      ensures scheduled <==> heap != multiset{}
      ensures scheduled ==> forall t :: t in heap ==> wait == 0 || now + wait <= t.at
      ensures scheduled ==> exists t :: t in heap && t.at <= now + wait
    {
      scheduled, wait := heap != multiset{}, 0;
      if scheduled {
        TopExists(heap);
        var t :| t in heap && forall u :: u in heap ==> FiresFirst(t, u);
        wait := if now <= t.at then t.at - now else 0;
        assert t.at <= now + wait;
        assert forall u :: u in heap ==> FiresFirst(t, u) && t.at <= u.at;
      }
    }
  }
}
