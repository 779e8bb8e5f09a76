/** The frame batcher: a flush runs at most once per screen frame however often it is scheduled.
    The flush is foreign code and may call the batcher again while it runs. */
module FrameBatch {
  import opened Basics

  /** What is done with a batcher. `inner` is what the flush does with it, if it runs at all. */
  datatype Act =
    | Schedule
    | Cancel
    | FlushNow(inner: seq<Act>)
    | Frame(inner: seq<Act>)  // the screen reaches its next frame

  datatype Event = Requested | Flushed | Cancelled

  /** Whether a frame is outstanding afterwards, and what happened, in order. */
  function One(on: bool, a: Act): (bool, seq<Event>)
    decreases a, 1
  {
    match a
    case Schedule => (true, if on then [] else [Requested])
    case Cancel => (false, if on then [Cancelled] else [])
    case FlushNow(inner) => if on then Running(inner) else (false, [])
    case Frame(inner) => if on then Running(inner) else (false, [])
  }

  function Running(inner: seq<Act>): (bool, seq<Event>)
    decreases inner, 2
  {
    var (on, events) := All(false, inner);
    (on, [Flushed] + events)
  }

  function All(on: bool, acts: seq<Act>): (bool, seq<Event>)
    decreases acts, 1
  {
    if acts == [] then (on, [])
    else
      var (mid, events) := One(on, acts[0]);
      var (end, more) := All(mid, acts[1..]);
      (end, events + more)
  }

  // ------------------------------------------------------------- the code as it is

  /** The screen's outstanding animation-frame callbacks, each with the batcher it belongs to. */
  class Screen {
    var callbacks: map<nat, nat>
    var next: nat

    ghost predicate Valid() reads this { forall id :: id in callbacks ==> id < next }

    method RequestAnimationFrame(owner: nat) returns (id: nat)
      requires Valid()
      modifies this
      ensures Valid() && id !in old(callbacks) && callbacks == old(callbacks)[id := owner]
    {
      id := next;
      callbacks := callbacks[id := owner];
      next := next + 1;
    }

    method CancelAnimationFrame(id: nat)
      requires Valid()
      modifies this
      ensures Valid() && callbacks == old(callbacks) - {id}
    {
      callbacks := callbacks - {id};
    }
  }

  class FrameBatcher {
    const me: nat
    const screen: Screen
    var frame: Option<nat>
    ghost var log: seq<Event>

    function Mine(): set<nat> reads this, screen {
      set id | id in screen.callbacks && screen.callbacks[id] == me
    }

    /** `frame` is the one outstanding callback of this batcher, or null when there is none. */
    ghost predicate Valid() reads this, screen {
      screen.Valid() && Mine() == if frame.Some? then {frame.value} else {}
    }

    /** The callbacks of other batchers. */
    function Others(): map<nat, nat> reads this, screen {
      map id | id in screen.callbacks && screen.callbacks[id] != me :: screen.callbacks[id]
    }

    constructor (me: nat, screen: Screen)
      requires screen.Valid() && forall id :: id in screen.callbacks ==> screen.callbacks[id] != me
      ensures Valid() && frame == None && log == [] && this.screen == screen && this.me == me
    {
      this.me, this.screen, frame, log := me, screen, None, [];
    }

    method Run(inner: seq<Act>)
      requires screen.Valid() && Mine() == {}
      modifies this, screen
      ensures Valid() && frame.Some? == Running(inner).0 && log == old(log) + Running(inner).1
      ensures Others() == old(Others())
      decreases inner, 2
    {
      frame := None;
      log := log + [Flushed];
      Perform(inner);  // flush()
      assert old(log) + [Flushed] + All(false, inner).1 == old(log) + ([Flushed] + All(false, inner).1);
    }

    method Schedule()
      requires Valid()
      modifies this, screen
      ensures Valid() && frame.Some? && log == old(log) + One(old(frame).Some?, Act.Schedule).1
      ensures Others() == old(Others()) && (old(frame).Some? ==> frame == old(frame))
    {
      if frame == None {
        var id := screen.RequestAnimationFrame(me);
        frame := Some(id);
        log := log + [Requested];
      }
    }

    method FlushNow(inner: seq<Act>)
      requires Valid()
      modifies this, screen
      ensures Valid() && Others() == old(Others())
      ensures frame.Some? == One(old(frame).Some?, Act.FlushNow(inner)).0 && log == old(log) + One(old(frame).Some?, Act.FlushNow(inner)).1
      decreases inner, 3
    {
      if frame == None { return; }
      screen.CancelAnimationFrame(frame.value);
      assert Mine() == {};
      Run(inner);
    }

    method CancelFrame()
      requires Valid()
      modifies this, screen
      ensures Valid() && frame.None? && log == old(log) + One(old(frame).Some?, Act.Cancel).1
      ensures Others() == old(Others())
    {
      if frame != None {
        screen.CancelAnimationFrame(frame.value);
        log := log + [Cancelled];
      }
      frame := None;
    }

    /** The screen takes this batcher's outstanding callback, if any, and calls it. */
    method Fire(inner: seq<Act>)
      requires Valid()
      modifies this, screen
      ensures Valid() && Others() == old(Others())
      ensures frame.Some? == One(old(frame).Some?, Act.Frame(inner)).0 && log == old(log) + One(old(frame).Some?, Act.Frame(inner)).1
      decreases inner, 3
    {
      if id :| id in screen.callbacks && screen.callbacks[id] == me {
        assert id in Mine();
        screen.callbacks := screen.callbacks - {id};
        assert Mine() == {};
        Run(inner);
      } else {
        assert Mine() == {};
      }
    }

    /** Any sequence of uses, each finding the state the one before left. */
    method Perform(acts: seq<Act>)
      requires Valid()
      modifies this, screen
      ensures Valid() && frame.Some? == All(old(frame).Some?, acts).0 && log == old(log) + All(old(frame).Some?, acts).1
      ensures Others() == old(Others())
      decreases acts, 1
    {
      if acts != [] {
        var a := acts[0];
        if a.Schedule? { Schedule(); }
        else if a.Cancel? { CancelFrame(); }
        else if a.FlushNow? { FlushNow(a.inner); }
        else { Fire(a.inner); }
        assert frame.Some? == One(old(frame).Some?, a).0 && log == old(log) + One(old(frame).Some?, a).1;
        Perform(acts[1..]);
      }
    }
  }

  // ------------------------------------------------------------------ guarantees

  /** Every request is followed by its one flush or cancel before the next request, and there is no
      flush or cancel without a request. */
  ghost predicate Alternates(on: bool, log: seq<Event>, end: bool)
    decreases |log|
  {
    if log == [] then on == end
    else if on then !log[0].Requested? && Alternates(false, log[1..], end)
    else log[0].Requested? && Alternates(true, log[1..], end)
  }

  lemma {:induction false} AlternatesAppend(on: bool, a: seq<Event>, mid: bool, b: seq<Event>, end: bool)
    requires Alternates(on, a, mid) && Alternates(mid, b, end)
    ensures Alternates(on, a + b, end)
    decreases |a|
  {
    if a == [] {
      assert a + b == b;
    } else {
      assert (a + b)[1..] == a[1..] + b;
      AlternatesAppend(!on, a[1..], mid, b, end);
    }
  }

  /** Whatever is done, however the flush calls back into the batcher. */
  lemma {:induction false} EachRequestServedOnce(on: bool, acts: seq<Act>)
    ensures Alternates(on, All(on, acts).1, All(on, acts).0)
    decreases acts, 1
  {
    if acts == [] {
    } else {
      var (mid, events) := One(on, acts[0]);
      OneAlternates(on, acts[0]);
      EachRequestServedOnce(mid, acts[1..]);
      AlternatesAppend(on, events, mid, All(mid, acts[1..]).1, All(mid, acts[1..]).0);
    }
  }

  lemma {:induction false} OneAlternates(on: bool, a: Act)
    ensures Alternates(on, One(on, a).1, One(on, a).0)
    decreases a, 1
  {
    if (a.FlushNow? || a.Frame?) && on {
      EachRequestServedOnce(false, a.inner);
      assert ([Flushed] + All(false, a.inner).1)[1..] == All(false, a.inner).1;
    }
  }

  function Count(log: seq<Event>, e: Event): nat {
    if log == [] then 0 else (if log[0] == e then 1 else 0) + Count(log[1..], e)
  }

  lemma {:induction false} AlternatingCounts(on: bool, log: seq<Event>, end: bool)
    requires Alternates(on, log, end)
    ensures Count(log, Requested) + (if on then 1 else 0) == Count(log, Flushed) + Count(log, Cancelled) + if end then 1 else 0
    decreases |log|
  {
    if log == [] {
    } else {
      AlternatingCounts(!on, log[1..], end);
    }
  }

  /** Conservation: requests are flushed, cancelled, or still outstanding. */
  lemma RequestsAreConserved(acts: seq<Act>)
    ensures var (end, log) := All(false, acts);
            Count(log, Requested) == Count(log, Flushed) + Count(log, Cancelled) + if end then 1 else 0
  {
    EachRequestServedOnce(false, acts);
    AlternatingCounts(false, All(false, acts).1, All(false, acts).0);
  }

  lemma {:induction false} AllAppend(on: bool, a: seq<Act>, b: seq<Act>)
    ensures All(on, a + b).0 == All(All(on, a).0, b).0
    ensures All(on, a + b).1 == All(on, a).1 + All(All(on, a).0, b).1
    decreases |a|
  {
    if a == [] {
      assert a + b == b;
    } else {
      assert (a + b)[1..] == a[1..] + b;
      AllAppend(One(on, a[0]).0, a[1..], b);
    }
  }

  /** Every schedule is served: when no frame is outstanding in the end, the first thing that happened
      after it was a flush or a cancel. */
  lemma EveryScheduleIsServed(on: bool, before: seq<Act>, after: seq<Act>)
    ensures var log := All(true, after).1;
            && All(on, before + [Schedule] + after).0 == All(true, after).0
            && All(on, before + [Schedule] + after).1 == All(on, before + [Schedule]).1 + log
            && (!All(true, after).0 ==> log != [] && !log[0].Requested?)
  {
    AllAppend(on, before, [Schedule]);
    assert [Schedule][1..] == [];
    AllAppend(on, before + [Schedule], after);
    EachRequestServedOnce(true, after);
  }

  /** Nothing is cancelled but by a cancel. */
  predicate NoCancel(acts: seq<Act>)
    decreases acts
  {
    acts == [] ||
    (!acts[0].Cancel? && (acts[0].FlushNow? || acts[0].Frame? ==> NoCancel(acts[0].inner)) && NoCancel(acts[1..]))
  }

  lemma {:induction false} OnlyCancelsCancel(on: bool, acts: seq<Act>)
    requires NoCancel(acts)
    ensures Cancelled !in All(on, acts).1
    decreases acts
  {
    if acts == [] {
    } else {
      var (mid, events) := One(on, acts[0]);
      if acts[0].FlushNow? || acts[0].Frame? {
        OnlyCancelsCancel(false, acts[0].inner);
        assert Running(acts[0].inner).1 == [Flushed] + All(false, acts[0].inner).1;
      }
      assert Cancelled !in events;
      OnlyCancelsCancel(mid, acts[1..]);
      assert All(on, acts).1 == events + All(mid, acts[1..]).1;
    }
  }

  /** So without cancels every request is flushed, but for the one that is outstanding. */
  lemma WithoutCancelsAllFlushed(acts: seq<Act>)
    requires NoCancel(acts)
    ensures var (end, log) := All(false, acts);
            Count(log, Requested) == Count(log, Flushed) + if end then 1 else 0
  {
    RequestsAreConserved(acts);
    OnlyCancelsCancel(false, acts);
    NoneCounted(All(false, acts).1, Cancelled);
  }

  lemma {:induction false} NoneCounted(log: seq<Event>, e: Event)
    requires e !in log
    ensures Count(log, e) == 0
  {
    if log == [] {
    } else {
      NoneCounted(log[1..], e);
    }
  }

  /** With a frame outstanding, the next use that is no schedule decides what becomes of it: a cancel cancels
      it, a flush or the frame flushes at once. With none outstanding these do nothing. */
  lemma NextUseDecides(k: nat, a: Act, rest: seq<Act>)
    requires !a.Schedule?
    ensures var log := All(true, Schedules(k) + [a] + rest).1;
            log != [] && log[0] == if a.Cancel? then Cancelled else Flushed
    ensures All(false, [a] + rest) == All(false, rest)
  {
    ManySchedules(k, true);
    AllOne(true, a);
    AllOne(false, a);
    AllAppend(true, Schedules(k) + [a], rest);
    AllAppend(true, Schedules(k), [a]);
    AllAppend(false, [a], rest);
    assert [] + All(false, rest).1 == All(false, rest).1;
  }

  lemma AllOne(on: bool, a: Act)
    ensures All(on, [a]) == One(on, a)
  {
    assert [a][1..] == [] && One(on, a).1 + [] == One(on, a).1;
  }

  function Schedules(k: nat): seq<Act> {
    if k == 0 then [] else [Schedule] + Schedules(k - 1)
  }

  lemma {:induction false} ManySchedules(k: nat, on: bool)
    ensures All(on, Schedules(k)).0 == (on || k > 0)
    ensures All(on, Schedules(k)).1 == if on || k == 0 then [] else [Requested]
  {
    if k == 0 {
    } else {
      assert Schedules(k)[1..] == Schedules(k - 1);
      ManySchedules(k - 1, true);
    }
  }

  /** However often the batcher is scheduled before a frame, the frame flushes once; a frame with
      nothing scheduled flushes not at all. */
  lemma OneFlushPerFrame(k: nat, inner: seq<Act>)
    ensures var acts := Schedules(k) + [Frame(inner)];
            && All(false, acts).0 == (k > 0 && Running(inner).0)
            && All(false, acts).1 == if k == 0 then [] else [Requested] + Running(inner).1
  {
    ManySchedules(k, false);
    AllAppend(false, Schedules(k), [Frame(inner)]);
    assert [Frame(inner)][1..] == [];
    assert Running(inner).1 + [] == Running(inner).1;
  }
}
